/** An encoder for complex packing that may cut the field into any groups whose values fit, and the
    proof that the decoder inverts it. */
module ComplexEncode {
  import opened Common
  import opened Bits
  import opened FieldReader
  import opened ComplexPacking

  /** A group: its reference, the width and length fields stored for it, and its values less the
      reference. */
  datatype Group = Group(ref: nat, storedWidth: nat, storedLength: nat, values: seq<nat>)

  /** What an encoder chooses: the groups, the descriptors, and the bits that fill the blocks up to
      whole bytes. */
  datatype Layout = Layout(d: Descriptors, groups: seq<Group>, fill: seq<bits>)

  // ---- Legal choices ------------------------------------------------------------------------

  /** Every header field is read exactly by the 64-bit buffer. */
  predicate NarrowHeaders(p: Params) {
    && 0 <= p.bitsPerValue <= 57 && 0 <= p.gwBits <= 57 && 0 <= p.glBits <= 57
    && 0 <= p.extraOctets * 8 <= 57 && p.order <= 2
  }

  predicate LegalGroup(p: Params, g: Group)
    requires NarrowHeaders(p)
  {
    && g.ref < Pow2(p.bitsPerValue)
    && g.storedWidth < Pow2(p.gwBits)
    && g.storedLength < Pow2(p.glBits)
    && 0 <= g.storedWidth + p.gwRef <= 57
    && AllBelow(g.values, Pow2(g.storedWidth + p.gwRef))
  }

  /** All groups but the last have the length their field says; the last has the pinned one. */
  predicate LegalLengths(p: Params, groups: seq<Group>) {
    && |groups| == p.numGroups
    && forall i :: 0 <= i < |groups| ==>
      |groups[i].values| == Count(if i == |groups| - 1 then p.glLast else p.glRef + groups[i].storedLength * p.glIncr)
  }

  predicate FitsSigned(x: int, width: nat) { if width == 0 then x == 0 else Abs(x) < Pow2(width - 1) }

  /** The descriptors fit their fields; without fields for them they must all be zero. */
  predicate LegalDescriptors(p: Params, d: Descriptors)
    requires NarrowHeaders(p)
  {
    && |d.firsts| == p.order
    && (p.order > 0 ==> FitsSigned(d.overallMin, p.extraOctets * 8))
    && (p.order == 0 ==> d.overallMin == 0)
    && forall i :: 0 <= i < |d.firsts| ==> FitsSigned(d.firsts[i], p.extraOctets * 8)
  }

  // ---- The encoding -------------------------------------------------------------------------

  /** Sign and magnitude in one number. */
  function SignedField(x: int, width: nat): (v: nat)
    requires FitsSigned(x, width)
    ensures v < Pow2(width)
  {
    if width == 0 then 0 else if x < 0 then Pow2(width - 1) - x else x
  }

  function SignedFields(xs: seq<int>, width: nat): (vs: seq<nat>)
    requires forall i :: 0 <= i < |xs| ==> FitsSigned(xs[i], width)
    ensures |vs| == |xs| && AllBelow(vs, Pow2(width))
  {
    if xs == [] then [] else SignedFields(xs[..|xs| - 1], width) + [SignedField(xs[|xs| - 1], width)]
  }

  function Refs(gs: seq<Group>): (r: seq<nat>)
    ensures |r| == |gs| && forall i :: 0 <= i < |gs| ==> r[i] == gs[i].ref
  { seq(|gs|, i requires 0 <= i < |gs| => gs[i].ref) }

  function Widths(gs: seq<Group>): (r: seq<nat>)
    ensures |r| == |gs| && forall i :: 0 <= i < |gs| ==> r[i] == gs[i].storedWidth
  { seq(|gs|, i requires 0 <= i < |gs| => gs[i].storedWidth) }

  function Lengths(gs: seq<Group>): (r: seq<nat>)
    ensures |r| == |gs| && forall i :: 0 <= i < |gs| ==> r[i] == gs[i].storedLength
  { seq(|gs|, i requires 0 <= i < |gs| => gs[i].storedLength) }

  function DescriptorBits(p: Params, d: Descriptors): bits
    requires NarrowHeaders(p) && LegalDescriptors(p, d)
  {
    if p.order > 0 && p.extraOctets > 0 then
      Fields(SignedFields(d.firsts, p.extraOctets * 8), p.extraOctets * 8)
      + FromNat(SignedField(d.overallMin, p.extraOctets * 8), p.extraOctets * 8)
    else []
  }

  function ValueBits(p: Params, gs: seq<Group>): bits
    requires NarrowHeaders(p) && forall i :: 0 <= i < |gs| ==> LegalGroup(p, gs[i])
  {
    if gs == [] then [] else
    var g := gs[|gs| - 1];
    assert LegalGroup(p, g);
    ValueBits(p, gs[..|gs| - 1]) + Fields(g.values, g.storedWidth + p.gwRef)
  }

  predicate Fills(fill: bits, block: bits) { |fill| < 8 && (|block| + |fill|) % 8 == 0 }

  predicate LegalLayout(p: Params, m: Layout)
    requires NarrowHeaders(p)
  {
    && LegalDescriptors(p, m.d) && LegalLengths(p, m.groups)
    && (forall i :: 0 <= i < |m.groups| ==> LegalGroup(p, m.groups[i]))
    && |m.fill| == 4
    && Fills(m.fill[0], Fields(Refs(m.groups), p.bitsPerValue))
    && Fills(m.fill[1], Fields(Widths(m.groups), p.gwBits))
    && Fills(m.fill[2], Fields(Lengths(m.groups), p.glBits))
    && (|ValueBits(p, m.groups)| + |m.fill[3]|) % 8 == 0
  }

  /** Everything after the descriptors, which take whole bytes. */
  function GroupBits(p: Params, m: Layout): bits
    requires NarrowHeaders(p) && LegalLayout(p, m)
  {
    Fields(Refs(m.groups), p.bitsPerValue) + m.fill[0]
    + (Fields(Widths(m.groups), p.gwBits) + m.fill[1]
       + (Fields(Lengths(m.groups), p.glBits) + m.fill[2]
          + (ValueBits(p, m.groups) + m.fill[3])))
  }

  function Encode(p: Params, m: Layout): bits
    requires NarrowHeaders(p) && LegalLayout(p, m)
  {
    DescriptorBits(p, m.d) + GroupBits(p, m)
  }

  /** The packed values of all groups. */
  function AllValues(gs: seq<Group>): seq<int> {
    if gs == [] then [] else AllValues(gs[..|gs| - 1]) + Raised(gs[|gs| - 1].values, gs[|gs| - 1].ref, 1)
  }

  function Raised(vs: seq<nat>, base: int, step: int): (r: seq<int>)
    ensures |r| == |vs| && forall i :: 0 <= i < |r| ==> r[i] == base + vs[i] * step
  {
    seq(|vs|, i requires 0 <= i < |vs| => base + vs[i] * step)
  }

  /** The packed values stand for xs: themselves, their differences or their second differences,
      less the overall minimum; those of the first values do not matter, and neither do any beyond
      the number wanted. */
  predicate StandsFor(p: Params, raw: seq<int>, d: Descriptors, xs: seq<int>) {
    && |xs| == (if |raw| > p.nValues then p.nValues else |raw|)
    && |d.firsts| == p.order
    && forall i :: 0 <= i < |xs| ==> StandsAt(p.order, raw, d, xs, i)
  }

  predicate StandsAt(order: nat, raw: seq<int>, d: Descriptors, xs: seq<int>, i: nat)
    requires i < |xs| <= |raw| && |d.firsts| == order
  {
    if i < order then xs[i] == d.firsts[i]
    else if order == 0 then raw[i] == xs[i]
    else if order == 1 then raw[i] == xs[i] - xs[i - 1] - d.overallMin
    else order == 2 && raw[i] == xs[i] - 2 * xs[i - 1] + xs[i - 2] - d.overallMin
  }

  // ---- Decoding inverts encoding ------------------------------------------------------------

  lemma SignedBack(x: int, width: nat)
    requires FitsSigned(x, width)
    ensures Signed(SignedField(x, width), width) == x
  {
    if width > 0 {
      var half, v := Pow2(width - 1), SignedField(x, width);
      assert Pow2(width) == 2 * half && Pow2(1) == 2;
      hide Pow2;
      if x < 0 { DivisionIsUnique(v, half, 1, -x); } else { DivisionIsUnique(v, half, 0, x); }
      DivisionIsUnique(v / half, Pow2(1), 0, v / half);
    }
  }

  lemma {:induction false} LinearBlock(vs: seq<nat>, width: nat, base: int, step: int, rest: bits)
    requires width <= 57 && AllBelow(vs, Pow2(width))
    ensures TakeMeant(Some(Fields(vs, width) + rest), |vs|, width, Linear(base, step)) == (Raised(vs, base, step), Some(rest))
  {
    hide Pow2, Take, Raised;
    if vs == [] {
      assert [] + rest == rest && Raised(vs, base, step) == [];
    } else {
      var init, last := vs[..|vs| - 1], FromNat(vs[|vs| - 1], width);
      LinearBlock(init, width, base, step, last + rest);
      assert Fields(vs, width) + rest == Fields(init, width) + (last + rest);
      FieldBack(vs[|vs| - 1], width, rest);
      RaisedNext(vs, base, step);
    }
  }

  lemma RaisedNext(vs: seq<nat>, base: int, step: int)
    requires vs != []
    ensures var n := |vs| - 1; Raised(vs, base, step) == Raised(vs[..n], base, step) + [base + vs[n] * step]
  {}

  lemma {:induction false} SignedBlock(xs: seq<int>, width: nat, rest: bits)
    requires width <= 57 && forall i :: 0 <= i < |xs| ==> FitsSigned(xs[i], width)
    ensures TakeMeant(Some(Fields(SignedFields(xs, width), width) + rest), |xs|, width, SignMagnitude) == (xs, Some(rest))
  {
    hide Pow2, Take, FitsSigned, Signed, SignedField;
    var vs := SignedFields(xs, width);
    if xs == [] {
      assert [] + rest == rest;
    } else {
      var init, x := xs[..|xs| - 1], xs[|xs| - 1];
      var last := FromNat(SignedField(x, width), width);
      SignedBlock(init, width, last + rest);
      assert vs[..|xs| - 1] == SignedFields(init, width);
      assert Fields(vs, width) + rest == Fields(SignedFields(init, width), width) + (last + rest);
      FieldBack(SignedField(x, width), width, rest);
      SignedBack(x, width);
      assert xs == init + [x];
    }
  }

  lemma AlignBack(fill: bits, rest: bits)
    requires |fill| < 8 && |rest| % 8 == 0
    ensures Align(Some(fill + rest)) == Some(rest)
  {
    assert |fill + rest| % 8 == |fill|;
    assert (fill + rest)[|fill|..] == rest;
  }

  /** A block of group headers and its fill. */
  lemma HeaderBlock(vs: seq<nat>, width: nat, base: int, step: int, fill: bits, rest: bits)
    requires width <= 57 && AllBelow(vs, Pow2(width)) && Fills(fill, Fields(vs, width)) && |rest| % 8 == 0
    ensures |Fields(vs, width) + fill + rest| % 8 == 0
    ensures var t := TakeMeant(Some(Fields(vs, width) + fill + rest), |vs|, width, Linear(base, step));
      t.0 == Raised(vs, base, step) && Align(t.1) == Some(rest)
  {
    hide Fields, Pow2, TakeMeant;
    LinearBlock(vs, width, base, step, fill + rest);
    assert Fields(vs, width) + fill + rest == Fields(vs, width) + (fill + rest);
    AlignBack(fill, rest);
  }

  lemma SignedDescriptorsBack(p: Params, d: Descriptors, rest: bits)
    requires NarrowHeaders(p) && LegalDescriptors(p, d) && p.order > 0 && p.extraOctets > 0 && |rest| % 8 == 0
    ensures |DescriptorBits(p, d)| % 8 == 0
    ensures ReadDescriptors(p, Some(DescriptorBits(p, d) + rest)) == (d, Some(rest))
  {
    hide Pow2, Fields, FromNat, SignedFields, SignedField, FitsSigned, Signed, Take, TakeMeant;
    var width := p.extraOctets * 8;
    var firsts := Fields(SignedFields(d.firsts, width), width);
    var least := FromNat(SignedField(d.overallMin, width), width);
    assert firsts + least + rest == firsts + (least + rest);
    SignedBlock(d.firsts, width, least + rest);
    FieldBack(SignedField(d.overallMin, width), width, rest);
    SignedBack(d.overallMin, width);
    FieldsLength(SignedFields(d.firsts, width), width);
    WholeBytes(|d.firsts|, p.extraOctets);
  }

  lemma DescriptorsBack(p: Params, d: Descriptors, rest: bits)
    requires NarrowHeaders(p) && LegalDescriptors(p, d) && |rest| % 8 == 0
    ensures |DescriptorBits(p, d)| % 8 == 0
    ensures ReadDescriptors(p, Some(DescriptorBits(p, d) + rest)) == (d, Some(rest))
  {
    if p.order > 0 && p.extraOctets > 0 {
      SignedDescriptorsBack(p, d, rest);
    } else {
      hide Signed, TakeMeant, Fields, SignedFields;
      assert [] + rest == rest;
      if p.order > 0 { assert d.firsts == Zeros(p.order); }
    }
  }

  lemma WholeBytes(n: nat, octets: nat)
    ensures n * (octets * 8) % 8 == 0
  {
    assert n * (octets * 8) == n * octets * 8;
  }

  lemma {:induction false} FieldsLength(vs: seq<nat>, width: nat)
    ensures |Fields(vs, width)| == |vs| * width
  {
    if vs == [] {
    } else {
      FieldsLength(vs[..|vs| - 1], width);
      Distribute(|vs| - 1, 1, width);
    }
  }

  /** What the decoder makes of the group headers. */
  predicate HeadersOf(p: Params, gs: seq<Group>, refs: seq<int>, widths: seq<int>, lengths: seq<int>) {
    && |gs| == |refs| == |widths| == |lengths|
    && forall i :: 0 <= i < |gs| ==>
      && refs[i] == gs[i].ref && widths[i] == gs[i].storedWidth + p.gwRef
      && Count(lengths[i]) == |gs[i].values|
  }

  lemma {:induction false} GroupsBack(p: Params, gs: seq<Group>, k: nat, refs: seq<int>, widths: seq<int>, lengths: seq<int>, rest: bits)
    requires NarrowHeaders(p) && k <= |gs| && (forall i :: 0 <= i < |gs| ==> LegalGroup(p, gs[i]))
    requires HeadersOf(p, gs, refs, widths, lengths)
    ensures ReadGroups(Some(ValueBits(p, gs[..k]) + rest), refs, widths, lengths, k) == (AllValues(gs[..k]), Some(rest))
  {
    hide NarrowHeaders, Fields, TakeMeant;
    if k == 0 {
      assert [] + rest == rest;
    } else {
      var g := gs[k - 1];
      var bits := Fields(g.values, g.storedWidth + p.gwRef);
      assert gs[..k][..k - 1] == gs[..k - 1];
      assert ValueBits(p, gs[..k]) + rest == ValueBits(p, gs[..k - 1]) + (bits + rest);
      GroupsBack(p, gs, k - 1, refs, widths, lengths, bits + rest);
      LinearBlock(g.values, g.storedWidth + p.gwRef, g.ref, 1, rest);
    }
  }

  lemma HeadersRead(p: Params, gs: seq<Group>)
    requires LegalLengths(p, gs)
    ensures HeadersOf(p, gs, Raised(Refs(gs), 0, 1), Raised(Widths(gs), p.gwRef, 1),
                      Pinned(Raised(Lengths(gs), p.glRef, p.glIncr), p.glLast))
  {}

  lemma HeaderValuesFit(p: Params, gs: seq<Group>)
    requires NarrowHeaders(p) && forall i :: 0 <= i < |gs| ==> LegalGroup(p, gs[i])
    ensures AllBelow(Refs(gs), Pow2(p.bitsPerValue)) && AllBelow(Widths(gs), Pow2(p.gwBits))
    ensures AllBelow(Lengths(gs), Pow2(p.glBits))
  {
    hide Pow2;
  }

  lemma PackedBack(p: Params, m: Layout)
    requires NarrowHeaders(p) && LegalLayout(p, m)
    ensures |GroupBits(p, m)| % 8 == 0
    ensures ReadPacked(p, Some(GroupBits(p, m))) == (AllValues(m.groups), Some(m.fill[3]))
  {
    hide ReadPacked, Fields, Fills, Refs, Widths, Lengths, ValueBits, AllValues, LegalGroup, LegalLengths, LegalDescriptors;
    var f := m.fill;
    PackedWith(p, m.groups, f[0], f[1], f[2], f[3]);
  }

  /** The three headers and the groups, each header filled up with its own bits. */
  lemma PackedWith(p: Params, gs: seq<Group>, f0: bits, f1: bits, f2: bits, f3: bits)
    requires NarrowHeaders(p) && LegalLengths(p, gs) && forall i :: 0 <= i < |gs| ==> LegalGroup(p, gs[i])
    requires Fills(f0, Fields(Refs(gs), p.bitsPerValue)) && Fills(f1, Fields(Widths(gs), p.gwBits))
    requires Fills(f2, Fields(Lengths(gs), p.glBits)) && (|ValueBits(p, gs)| + |f3|) % 8 == 0
    ensures var s := Fields(Refs(gs), p.bitsPerValue) + f0
                     + (Fields(Widths(gs), p.gwBits) + f1 + (Fields(Lengths(gs), p.glBits) + f2 + (ValueBits(p, gs) + f3)));
      |s| % 8 == 0 && ReadPacked(p, Some(s)) == (AllValues(gs), Some(f3))
  {
    hide Pow2, Fields, Fills, TakeMeant, Align, LegalGroup, ReadGroups, HeadersOf, Raised, Pinned;
    hide Refs, Widths, Lengths, ValueBits, AllValues;
    HeadersRead(p, gs);
    HeaderValuesFit(p, gs);
    hide LegalLengths;
    var values := ValueBits(p, gs) + f3;
    var lengths := Fields(Lengths(gs), p.glBits) + f2 + values;
    var widths := Fields(Widths(gs), p.gwBits) + f1 + lengths;
    HeaderBlock(Lengths(gs), p.glBits, p.glRef, p.glIncr, f2, values);
    HeaderBlock(Widths(gs), p.gwBits, p.gwRef, 1, f1, lengths);
    HeaderBlock(Refs(gs), p.bitsPerValue, 0, 1, f0, widths);
    assert gs[..|gs|] == gs;
    GroupsBack(p, gs, |gs|, Raised(Refs(gs), 0, 1), Raised(Widths(gs), p.gwRef, 1),
               Pinned(Raised(Lengths(gs), p.glRef, p.glIncr), p.glLast), f3);
  }

  lemma UndoneAt(order: nat, raw: seq<int>, d: Descriptors, xs: seq<int>, i: nat)
    requires order <= 2 && i < |xs| <= |raw| && |d.firsts| == order && StandsAt(order, raw, d, xs, i)
    ensures Undone(raw[..|xs|], order, d, xs[..i]) == xs[i]
  {}

  lemma {:induction false} Recovered(order: nat, raw: seq<int>, d: Descriptors, xs: seq<int>, k: nat)
    requires order <= 2 && k <= |xs| <= |raw| && |d.firsts| == order
    requires forall i :: 0 <= i < |xs| ==> StandsAt(order, raw, d, xs, i)
    ensures Integrated(raw[..|xs|], order, d, k) == xs[..k]
  {
    hide Undone, StandsAt;
    if k == 0 {
    } else {
      Recovered(order, raw, d, xs, k - 1);
      UndoneAt(order, raw, d, xs, k - 1);
    }
  }

  /** Whatever groups the encoder chose and whatever it filled the blocks with, decoding its whole
      bytes gives back exactly the integers, for differencing of order 0, 1 and 2. */
  lemma RoundTrip(p: Params, m: Layout, xs: seq<int>)
    requires NarrowHeaders(p) && LegalLayout(p, m) && StandsFor(p, AllValues(m.groups), m.d, xs)
    ensures |Encode(p, m)| % 8 == 0 && Unpack(p, Some(BitsOf(Pack(Encode(p, m))))) == Some(xs)
  {
    hide GroupBits, DescriptorBits, AllValues, Integrated, StandsAt, Pack, BitsOf, Unpack, LegalDescriptors, LegalLengths;
    hide LegalGroup, Refs, Widths, Lengths, ValueBits, ReadDescriptors, ReadPacked, Truncated;
    PackedBack(p, m);
    DescriptorsBack(p, m.d, GroupBits(p, m));
    Bits.PackedBits(Encode(p, m));
    UnpackedBy(p, Some(Encode(p, m)), m.d, Some(GroupBits(p, m)), AllValues(m.groups), m.fill[3]);
    Recovered(p.order, AllValues(m.groups), m.d, xs, |xs|);
    TruncatedTo(AllValues(m.groups), p.nValues, xs);
  }

  lemma UnpackedBy(p: Params, src: Source, d: Descriptors, packed: Source, raw: seq<int>, rest: bits)
    requires p.order <= 2 && ReadDescriptors(p, src) == (d, packed) && ReadPacked(p, packed) == (raw, Some(rest))
    ensures var all := Truncated(raw, p.nValues); Unpack(p, src) == Some(Integrated(all, p.order, d, |all|))
  {
    hide ReadDescriptors, ReadPacked, Integrated;
  }

  lemma TruncatedTo(raw: seq<int>, n: nat, xs: seq<int>)
    requires |xs| == if |raw| > n then n else |raw|
    ensures Truncated(raw, n) == raw[..|xs|] && |xs| <= |raw| && xs[..|xs|] == xs
  {}

  /** Every field whose (differenced) values fit 57 bits once the overall minimum is taken off, and
      whose first values and minimum fit seven octets, has an encoding: one group will do. */
  lemma EveryFieldHasALayout(xs: seq<int>, order: nat, d: Descriptors, ds: seq<nat>) returns (p: Params, m: Layout)
    requires order <= 2 && |d.firsts| == order && |ds| == |xs| && AllBelow(ds, Pow2(57))
    requires if order == 0 then d.overallMin == 0 else FitsSigned(d.overallMin, 56)
    requires forall i :: 0 <= i < order ==> FitsSigned(d.firsts[i], 56)
    requires forall i :: 0 <= i < |xs| ==> StandsAt(order, ds, d, xs, i)
    ensures NarrowHeaders(p) && LegalLayout(p, m) && StandsFor(p, AllValues(m.groups), m.d, xs)
  {
    hide Pow2, FitsSigned, StandsAt, Fields;
    var g := Group(0, 0, 0, ds);
    p := Params(0, 1, 57, 0, 0, 0, |ds|, 0, order, 7, |xs|);
    assert Pow2(0) == 1 by { OneBelow(); }
    var values := Fields(ds, 57);
    var pad: bits := seq((8 - |values| % 8) % 8, i => false);
    m := Layout(d, [g], [[], [], [], pad]);
    NoBitsInFields(Refs([g]));
    NoBitsInFields(Widths([g]));
    NoBitsInFields(Lengths([g]));
    OneGroup(p, g, values);
  }

  lemma OneBelow()
    ensures Pow2(0) == 1
  {}

  lemma NoBitsInFields(vs: seq<nat>)
    ensures |Fields(vs, 0)| == 0
  {
    FieldsLength(vs, 0);
  }

  lemma OneGroup(p: Params, g: Group, values: bits)
    requires NarrowHeaders(p) && LegalGroup(p, g) && values == Fields(g.values, g.storedWidth + p.gwRef) && g.ref == 0
    ensures |ValueBits(p, [g])| == |values| && AllValues([g]) == g.values
  {
    hide Fields, LegalGroup;
    assert [g][..0] == [];
    assert ValueBits(p, [g]) == [] + values;
    assert AllValues([g]) == [] + Raised(g.values, 0, 1);
  }
}
