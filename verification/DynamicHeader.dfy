/**
  The header of a dynamic block (section 3.2.7 of RFC 1951): the numbers of codes, the code sizes of the
  code-size code in their odd order, and the packed code sizes in that code.
 */
module DynamicHeader {
  import opened Arith
  import opened Bits
  import opened Wrappers
  import opened BitStream
  import opened BitOutput
  import opened CanonicalCode
  import opened BitEmitter
  import InflateBlock
  import MinRedundancy
  import HuffmanTable
  import HuffmanRoundTrip
  import DecodeTable
  import NearOptimal
  import Packing = CodeSizePacking

  const SWIZZLE: seq<nat> := [16, 17, 18, 0, 8, 7, 9, 6, 10, 5, 11, 4, 12, 3, 13, 2, 14, 1, 15]

  /** The decompressor's copy of it. */
  const DEZIGZAG: seq<nat> := [16, 17, 18, 0, 8, 7, 9, 6, 10, 5, 11, 4, 12, 3, 13, 2, 14, 1, 15]

  lemma SameOrder()
    ensures DEZIGZAG == SWIZZLE
  {
  }

  /** The order of section 3.2.7 of RFC 1951: the symbols of runs, no code, then the sizes by their distance from 8, the
      smaller ones first. */
  lemma OrderIs(k: nat)
    requires 1 <= k <= 7
    ensures SWIZZLE[..5] == [16, 17, 18, 0, 8] && SWIZZLE[3 + 2 * k] == 8 - k && SWIZZLE[4 + 2 * k] == 8 + k
  {
  }

  /** Where SWIZZLE has s. */
  function Place(s: nat): (i: nat)
    requires s < 19
    ensures i < 19 && SWIZZLE[i] == s
  {
    if s == 0 then 3 else if s >= 16 then s - 16
    else if s <= 7 then 19 - 2 * s
    else 2 * s - 12
  }

  lemma SwizzleIsPermutation(i: nat)
    requires i < 19
    ensures |SWIZZLE| == 19 && SWIZZLE[i] < 19 && Place(SWIZZLE[i]) == i
  {
  }

  /** What a header says: so many literal/length and distance codes, the code-size code with nb sizes sent, and the
      packed sizes. */
  datatype Header = Header(nl: nat, nd: nat, nb: nat, lens: HuffCodes, packed: seq<nat>)

  predicate Shaped(hd: Header) {
    257 <= hd.nl <= 286 && 1 <= hd.nd <= 30 && 4 <= hd.nb <= 19 && |hd.lens.sizes| == 19 && |hd.lens.codes| == 19
  }

  function SizeFields(sizes: seq<nat>, i: nat, nb: nat): seq<Field>
    requires |sizes| == 19 && i <= nb <= 19
    decreases nb - i
  {
    if i == nb then [] else
      SwizzleIsPermutation(i);
      [Field(sizes[SWIZZLE[i]], 3)] + SizeFields(sizes, i + 1, nb)
  }

  function PackedFields(h: HuffCodes, p: seq<nat>): seq<Field>
    requires |h.sizes| == 19 && |h.codes| == 19
  {
    if p == [] then []
    else if p[0] < 16 then [CodeField(h, p[0])] + PackedFields(h, p[1..])
    else if p[0] > 18 || |p| < 2 then []
    else [CodeField(h, p[0])] + ([Field(p[1], Packing.ExtraBits(p[0]))] + PackedFields(h, p[2..]))
  }

  function CountFields(hd: Header): seq<Field>
    requires Shaped(hd)
  {
    [Field(hd.nl - 257, 5)] + ([Field(hd.nd - 1, 5)] + [Field(hd.nb - 4, 4)])
  }

  function HeaderFields(hd: Header): seq<Field>
    requires Shaped(hd)
  {
    CountFields(hd) + (SizeFields(hd.lens.sizes, 0, hd.nb) + PackedFields(hd.lens, hd.packed))
  }

  /** Every symbol of p has a code. */
  ghost predicate Covers(h: HuffCodes, p: seq<nat>) {
    |h.sizes| == 19 && forall s :: 0 <= s < 19 && Packing.SymbolCount(p, s) > 0 ==> h.sizes[s] >= 1
  }

  /** The code-size code is one that the decoder accepts, and is sent completely. */
  ghost predicate Sent(hd: Header) {
    && Shaped(hd) && InflateBlock.Coded(hd.lens, 19) && DecodeTable.Accepts(hd.lens.sizes)
    && (forall s :: 0 <= s < 19 ==> hd.lens.sizes[s] < 8)
    && (forall s: nat :: s < 19 && Place(s) >= hd.nb ==> hd.lens.sizes[s] == 0)
  }

  /** The header stands for these code sizes. */
  ghost predicate Describes(hd: Header, lit: seq<nat>, dist: seq<nat>) {
    && Sent(hd) && |lit| == 288 && |dist| == 32
    && InflateBlock.NoneFrom(lit, hd.nl) && InflateBlock.NoneFrom(dist, hd.nd)
    && Covers(hd.lens, hd.packed)
    && Packing.Expand(hd.packed, []) == Some(lit[..hd.nl] + dist[..hd.nd])
  }

  // ----- the compressor's side

  /** tdefl_optimize_huffman_table on one of the compressor's three tables. */
  method TableFor(symCount: array<nat>, limit: nat, ghost count: seq<nat>) returns (h: HuffCodes)
    requires symCount.Length <= MinRedundancy.MAX_HUFF_SYMBOLS && count == symCount[..]
    requires 1 <= limit <= 15 && symCount.Length <= Pow2(limit) && Sum(count) < 0x1_0000
    ensures HuffmanTable.Table(count, h.sizes, h.codes, limit) && DecodeTable.Accepts(h.sizes)
    ensures limit == 15 ==> NearOptimal.NearBest(count, h.sizes)
  {
    hide *;
    var sizes, codes := HuffmanRoundTrip.MakeTable(symCount, limit, count);
    h := HuffCodes(sizes[..], codes[..]);
  }

  lemma TableIsCoded(count: seq<nat>, h: HuffCodes, limit: nat)
    requires HuffmanTable.Table(count, h.sizes, h.codes, limit) && limit <= 15
    ensures InflateBlock.Coded(h, |count|) && forall s :: 0 <= s < |count| ==> h.sizes[s] <= limit
    ensures forall s :: 0 <= s < |count| && count[s] > 0 ==> h.sizes[s] >= 1
    ensures forall s :: 0 <= s < |count| && count[s] == 0 ==> h.sizes[s] == 0
  {
  }

  /** How many codes are sent: all behind them are unused, and the last one is not, unless it must be sent. */
  method NumCodes(sizes: seq<nat>, most: nat, least: nat) returns (n: nat)
    requires least <= most <= |sizes| && forall s :: most <= s < |sizes| ==> sizes[s] == 0
    ensures least <= n <= most && InflateBlock.NoneFrom(sizes, n) && (n > least ==> sizes[n - 1] != 0)
  {
    n := most;
    while n > least
      invariant least <= n <= most && forall s :: n <= s < |sizes| ==> sizes[s] == 0
    {
      if sizes[n - 1] != 0 { break; }
      n := n - 1;
    }
  }

  method NumBitLengths(sizes: seq<nat>) returns (nb: nat)
    requires |sizes| == 19
    ensures 4 <= nb <= 19 && forall s: nat :: s < 19 && Place(s) >= nb ==> sizes[s] == 0
    ensures nb > 4 ==> sizes[SWIZZLE[nb - 1]] != 0
  {
    var n: int := 18;
    while n >= 0
      invariant -1 <= n <= 18 && forall s: nat :: s < 19 && Place(s) > n ==> sizes[s] == 0
    {
      SwizzleIsPermutation(n);
      if sizes[SWIZZLE[n]] != 0 { break; }
      n := n - 1;
    }
    nb := if 4 > n + 1 then 4 else n + 1;
  }

  function Histogram(p: seq<nat>): (h: seq<nat>)
    ensures |h| == 19 && forall s :: 0 <= s < 19 ==> h[s] == Packing.SymbolCount(p, s)
  {
    seq(19, s requires 0 <= s < 19 => Packing.SymbolCount(p, s))
  }

  /** There are no more symbols than entries. */
  lemma {:induction false} FewSymbols(p: seq<nat>, out: seq<nat>)
    requires Packing.Expand(p, out).Some?
    ensures Sum(Histogram(p)) <= |p|
    decreases |p|
  {
    var h := Histogram(p);
    if p == [] {
      NoSum(h);
    } else {
      var q := if p[0] < 16 then p[1..] else p[2..];
      var out' := if p[0] < 16 then out + [p[0]]
                  else out + Packing.Repeat(if p[0] == 16 then out[|out| - 1] else 0, p[1] + Packing.RunBase(p[0]));
      FewSymbols(q, out');
      var g := Histogram(q);
      assert h == g[p[0] := g[p[0]] + 1];
      SumUpdate(g, p[0], g[p[0]] + 1);
    }
  }

  lemma {:induction false} NoSum(s: seq<int>)
    requires forall i :: 0 <= i < |s| ==> s[i] == 0
    ensures Sum(s) == 0
  {
    if s != [] { NoSum(s[1..]); }
  }

  /** The packing loop and the code for its symbols. */
  method PackSizes(codeSizes: seq<nat>) returns (packed: seq<nat>, lens: HuffCodes)
    requires |codeSizes| <= 320 && forall i :: 0 <= i < |codeSizes| ==> codeSizes[i] < 16
    ensures Packing.Expand(packed, []) == Some(codeSizes) && |packed| <= |codeSizes| && Covers(lens, packed)
    ensures InflateBlock.Coded(lens, 19) && DecodeTable.Accepts(lens.sizes)
            && forall s :: 0 <= s < 19 ==> lens.sizes[s] < 8
    ensures |lens.sizes| == 19 && |lens.codes| == 19
  {
    Pow2Values();
    hide *;
    var a, huffCount := new nat[320](_ => 0), new nat[19](_ => 0);
    var np := Packing.PackCodeSizes(codeSizes, a, huffCount);
    packed := a[..np];
    ghost var hist := huffCount[..];
    PackedHistogram(packed, codeSizes, hist);
    lens := TableFor(huffCount, 7, hist);
    TableIsCoded(hist, lens, 7);
    IsCovered(lens, packed, codeSizes, hist);
  }

  lemma PackedHistogram(p: seq<nat>, codeSizes: seq<nat>, hist: seq<nat>)
    requires Packing.Packs(p, codeSizes, hist) && |p| <= 320
    ensures |hist| == 19 && Sum(hist) < 0x1_0000 && Packing.Expand(p, []) == Some(codeSizes)
    ensures 19 <= MinRedundancy.MAX_HUFF_SYMBOLS
  {
    FewSymbols(p, []);
    assert hist == Histogram(p);
  }

  lemma IsCovered(h: HuffCodes, p: seq<nat>, codeSizes: seq<nat>, hist: seq<nat>)
    requires Packing.Packs(p, codeSizes, hist) && InflateBlock.Coded(h, 19)
    requires |hist| == 19 && forall s :: 0 <= s < 19 && hist[s] > 0 ==> h.sizes[s] >= 1
    ensures Covers(h, p) && |h.sizes| == 19 && |h.codes| == 19
  {
  }

  /** No more code sizes are sent than must be. */
  ghost predicate Shortest(hd: Header, lit: seq<nat>, dist: seq<nat>) {
    && Shaped(hd) && |lit| == 288 && |dist| == 32
    && (hd.nl > 257 ==> lit[hd.nl - 1] != 0) && (hd.nd > 1 ==> dist[hd.nd - 1] != 0)
    && (hd.nb > 4 ==> hd.lens.sizes[SWIZZLE[hd.nb - 1]] != 0)
  }

  /** What tdefl_start_dynamic_block has computed when it begins to write. */
  method MakeHeader(lit: seq<nat>, dist: seq<nat>) returns (hd: Header)
    requires |lit| == 288 && |dist| == 32
    requires (forall s :: 0 <= s < 288 ==> lit[s] <= 15) && (forall s :: 0 <= s < 32 ==> dist[s] <= 15)
    requires (forall s :: 286 <= s < 288 ==> lit[s] == 0) && (forall s :: 30 <= s < 32 ==> dist[s] == 0)
    ensures Describes(hd, lit, dist) && |hd.packed| <= 316 && Shortest(hd, lit, dist)
  {
    hide *;
    var nl := NumCodes(lit, 286, 257);
    var nd := NumCodes(dist, 30, 1);
    var codeSizes := lit[..nl] + dist[..nd];
    var packed, lens := PackSizes(codeSizes);
    var nb := NumBitLengths(lens.sizes);
    hd := Header(nl, nd, nb, lens, packed);
    IsSent(hd);
    IsDescribed(hd, lit, dist);
    IsShortest(hd, lit, dist);
  }

  lemma IsShortest(hd: Header, lit: seq<nat>, dist: seq<nat>)
    requires |lit| == 288 && |dist| == 32 && 257 <= hd.nl <= 286 && 1 <= hd.nd <= 30 && 4 <= hd.nb <= 19
    requires |hd.lens.sizes| == 19 && |hd.lens.codes| == 19
    requires (hd.nl > 257 ==> lit[hd.nl - 1] != 0) && (hd.nd > 1 ==> dist[hd.nd - 1] != 0)
    requires hd.nb > 4 ==> hd.lens.sizes[SWIZZLE[hd.nb - 1]] != 0
    ensures Shortest(hd, lit, dist)
  {
  }

  lemma IsSent(hd: Header)
    requires 257 <= hd.nl <= 286 && 1 <= hd.nd <= 30 && 4 <= hd.nb <= 19 && |hd.lens.sizes| == 19
             && |hd.lens.codes| == 19
    requires InflateBlock.Coded(hd.lens, 19) && DecodeTable.Accepts(hd.lens.sizes)
    requires (forall s :: 0 <= s < 19 ==> hd.lens.sizes[s] < 8)
    requires (forall s: nat :: s < 19 && Place(s) >= hd.nb ==> hd.lens.sizes[s] == 0)
    ensures Sent(hd)
  {
  }

  lemma IsDescribed(hd: Header, lit: seq<nat>, dist: seq<nat>)
    requires Sent(hd) && |lit| == 288 && |dist| == 32 && hd.nl <= 288 && hd.nd <= 32
    requires InflateBlock.NoneFrom(lit, hd.nl) && InflateBlock.NoneFrom(dist, hd.nd) && Covers(hd.lens, hd.packed)
    requires Packing.Expand(hd.packed, []) == Some(lit[..hd.nl] + dist[..hd.nd])
    ensures Describes(hd, lit, dist)
  {
  }

  lemma SizeStep(sizes: seq<nat>, i: nat, nb: nat)
    requires |sizes| == 19 && i <= nb <= 19
    ensures |SWIZZLE| == 19
    ensures i == nb ==> SizeFields(sizes, i, nb) == []
    ensures i < nb ==>
            SWIZZLE[i] < 19 && SizeFields(sizes, i, nb) == [Field(sizes[SWIZZLE[i]], 3)] + SizeFields(sizes, i + 1, nb)
  {
    if i < nb { SwizzleIsPermutation(i); }
  }

  /** The entries at `used`: what they put into the stream. */
  lemma PackedStep(h: HuffCodes, p: seq<nat>, used: nat, out: seq<nat>)
    requires |h.sizes| == |h.codes| == 19 && Packing.ReadTo(p, used, out) && Packing.Expand(p, []).Some?
    ensures used == |p| ==> PackedFields(h, p[used..]) == []
    ensures used < |p| && p[used] < 16 ==>
              && PackedFields(h, p[used..]) == [CodeField(h, p[used])] + PackedFields(h, p[used + 1..])
              && Packing.ReadTo(p, used + 1, out + [p[used]])
    ensures used < |p| && p[used] >= 16 ==>
              && p[used] <= 18 && used + 1 < |p| && p[used + 1] < Pow2(Packing.ExtraBits(p[used]))
                 && (p[used] == 16 ==> out != [])
              && PackedFields(h, p[used..])
                 == [CodeField(h, p[used])]
                     + ([Field(p[used + 1], Packing.ExtraBits(p[used]))] + PackedFields(h, p[used + 2..]))
              && p[used + 1] + Packing.RunBase(p[used]) <= 138
              && Packing.ReadTo(p, used + 2,
                                out + Packing.Repeat(if p[used] == 16 then out[|out| - 1] else 0,
                                                     p[used + 1] + Packing.RunBase(p[used])))
  {
    if used < |p| {
      assert p[..|p|] == p;
      Packing.LaterIsMore(p, used, out, |p|);
      var q := p[used..];
      if p[used] < 16 {
        Packing.ReadSize(p, used, out);
        assert q[1..] == p[used + 1..];
      } else {
        Packing.ReadRun(p, used, out);
        assert q[2..] == p[used + 2..];
      }
    }
  }

  lemma NothingRead(p: seq<nat>)
    ensures Packing.ReadTo(p, 0, []) && p[0..] == p
  {
    assert p[..0] == [];
  }

  lemma {:induction false} Occurs(p: seq<nat>, used: nat, out: seq<nat>)
    requires Packing.ReadTo(p, used, out) && used < |p| && Packing.Expand(p, []).Some?
    ensures Packing.SymbolCount(p, p[used]) > 0
  {
    assert p == p[..used] + p[used..];
    Packing.ExpandAppend(p[..used], p[used..], []);
  }

  /** The code of the symbol at `used`. */
  lemma SymbolHasCode(hd: Header, used: nat, out: seq<nat>)
    requires Sent(hd) && Covers(hd.lens, hd.packed) && Packing.Expand(hd.packed, []).Some?
    requires Packing.ReadTo(hd.packed, used, out) && used < |hd.packed|
    ensures |hd.lens.sizes| == |hd.lens.codes| == 19 && InflateBlock.Coded(hd.lens, 19)
    ensures hd.packed[used] < 19 && 1 <= hd.lens.sizes[hd.packed[used]] <= 7
    ensures hd.lens.codes[hd.packed[used]] < Pow2(hd.lens.sizes[hd.packed[used]])
    ensures CodeField(hd.lens, hd.packed[used]) == Field(hd.lens.codes[hd.packed[used]], hd.lens.sizes[hd.packed[used]])
  {
    PackedStep(hd.lens, hd.packed, used, out);
    Occurs(hd.packed, used, out);
    hide Pow2;
  }

  lemma SentFacts(hd: Header)
    requires Sent(hd)
    ensures Shaped(hd) && |hd.lens.sizes| == |hd.lens.codes| == 19
    ensures 257 <= hd.nl <= 286 && 1 <= hd.nd <= 30 && 4 <= hd.nb <= 19
    ensures forall s :: 0 <= s < 19 ==> hd.lens.sizes[s] < 8
    ensures Pow2(3) == 8 && Pow2(4) == 16 && Pow2(5) == 32 && Pow2(7) == 128
  {
  }

  lemma Regroup(a: seq<Field>, b: seq<Field>, c: seq<Field>)
    ensures a + (b + c) == a + b + c
  {
  }

  method WriteCounts(out: Output, hd: Header, ghost fs: seq<Field>)
    requires Sent(hd) && Shaped(hd) && out.Valid(fs)
    modifies out`pos, out`bitBuffer, out`bitsIn, out.buf
    ensures out.Valid(fs + CountFields(hd))
  {
    SentFacts(hd);
    CountFieldsAre(hd);
    hide *;
    ghost var a, b, c := [Field(hd.nl - 257, 5)], [Field(hd.nd - 1, 5)], [Field(hd.nb - 4, 4)];
    out.PutBits(hd.nl - 257, 5, fs);
    out.PutBits(hd.nd - 1, 5, fs + a);
    out.PutBits(hd.nb - 4, 4, fs + a + b);
    assert fs + a + b + c == fs + (a + (b + c));
  }

  /** The sizes of the code-size code. */
  method WriteLens(out: Output, hd: Header, ghost fs: seq<Field>)
    requires Sent(hd) && Shaped(hd) && out.Valid(fs)
    modifies out`pos, out`bitBuffer, out`bitsIn, out.buf
    ensures out.Valid(fs + SizeFields(hd.lens.sizes, 0, hd.nb))
  {
    SentFacts(hd);
    hide *;
    ghost var gs, goal := fs, fs + SizeFields(hd.lens.sizes, 0, hd.nb);
    for i := 0 to hd.nb
      invariant out.Valid(gs) && gs + SizeFields(hd.lens.sizes, i, hd.nb) == goal
    {
      SizeStep(hd.lens.sizes, i, hd.nb);
      var s := hd.lens.sizes[SWIZZLE[i]];
      out.PutBits(s, 3, gs);
      Regroup(gs, [Field(s, 3)], SizeFields(hd.lens.sizes, i + 1, hd.nb));
      gs := gs + [Field(s, 3)];
    }
    SizeStep(hd.lens.sizes, hd.nb, hd.nb);
    assert gs + [] == gs;
  }

  lemma CountFieldsAre(hd: Header)
    requires Shaped(hd)
    ensures CountFields(hd) == [Field(hd.nl - 257, 5)] + ([Field(hd.nd - 1, 5)] + [Field(hd.nb - 4, 4)])
  {
  }

  lemma ExtraWidth(sym: nat)
    requires 16 <= sym <= 18
    ensures Packing.ExtraBits(sym) <= 7
  {
  }

  /** The packed sizes in their code. */
  method WritePacked(out: Output, hd: Header, ghost fs: seq<Field>)
    requires Sent(hd) && Covers(hd.lens, hd.packed) && Packing.Expand(hd.packed, []).Some?
             && |hd.lens.sizes| == |hd.lens.codes| == 19
    requires out.Valid(fs)
    modifies out`pos, out`bitBuffer, out`bitsIn, out.buf
    ensures out.Valid(fs + PackedFields(hd.lens, hd.packed))
  {
    hide *;
    var p, index: nat := hd.packed, 0;
    ghost var gs, goal, sizes := fs, fs + PackedFields(hd.lens, p), [];
    NothingRead(p);
    while index < |p|
      invariant index <= |p| && Packing.ReadTo(p, index, sizes) && out.Valid(gs)
                && gs + PackedFields(hd.lens, p[index..]) == goal
    {
      PackedStep(hd.lens, p, index, sizes);
      SymbolHasCode(hd, index, sizes);
      var code := p[index];
      out.PutBits(hd.lens.codes[code], hd.lens.sizes[code], gs);
      ghost var f := [Field(hd.lens.codes[code], hd.lens.sizes[code])];
      if code >= 16 {
        ExtraWidth(code);
        out.PutBits(p[index + 1], Packing.ExtraBits(code), gs + f);
        ghost var x := [Field(p[index + 1], Packing.ExtraBits(code))];
        Regroup(gs, f, x + PackedFields(hd.lens, p[index + 2..]));
        Regroup(gs + f, x, PackedFields(hd.lens, p[index + 2..]));
        gs := gs + f + x;
        sizes := sizes
            + Packing.Repeat(if code == 16 then sizes[|sizes| - 1] else 0, p[index + 1] + Packing.RunBase(code));
        index := index + 2;
      } else {
        Regroup(gs, f, PackedFields(hd.lens, p[index + 1..]));
        gs := gs + f;
        sizes := sizes + [code];
        index := index + 1;
      }
    }
    PackedStep(hd.lens, p, index, sizes);
    assert gs + [] == gs;
  }

  /** The writing part of tdefl_start_dynamic_block, behind the block type. */
  method WriteHeader(out: Output, hd: Header, ghost fs: seq<Field>, ghost lit: seq<nat>, ghost dist: seq<nat>)
    requires Describes(hd, lit, dist) && Shaped(hd) && out.Valid(fs)
    modifies out`pos, out`bitBuffer, out`bitsIn, out.buf
    ensures out.Valid(fs + HeaderFields(hd))
  {
    DescribesFacts(hd, lit, dist);
    HeaderFieldsAre(hd);
    hide *;
    WriteCounts(out, hd, fs);
    WriteLens(out, hd, fs + CountFields(hd));
    WritePacked(out, hd, fs + CountFields(hd) + SizeFields(hd.lens.sizes, 0, hd.nb));
    Regroup(fs, CountFields(hd), SizeFields(hd.lens.sizes, 0, hd.nb) + PackedFields(hd.lens, hd.packed));
    Regroup(fs + CountFields(hd), SizeFields(hd.lens.sizes, 0, hd.nb), PackedFields(hd.lens, hd.packed));
  }

  lemma HeaderFieldsAre(hd: Header)
    requires Shaped(hd)
    ensures HeaderFields(hd)
            == CountFields(hd) + (SizeFields(hd.lens.sizes, 0, hd.nb) + PackedFields(hd.lens, hd.packed))
  {
  }

  lemma DescribesFacts(hd: Header, lit: seq<nat>, dist: seq<nat>)
    requires Describes(hd, lit, dist)
    ensures Sent(hd) && Shaped(hd) && Covers(hd.lens, hd.packed) && |hd.lens.sizes| == |hd.lens.codes| == 19
    ensures |lit| == 288 && |dist| == 32 && 257 <= hd.nl <= 286 && 1 <= hd.nd <= 30 && 4 <= hd.nb <= 19
    ensures InflateBlock.NoneFrom(lit, hd.nl) && InflateBlock.NoneFrom(dist, hd.nd)
    ensures Packing.Expand(hd.packed, []) == Some(lit[..hd.nl] + dist[..hd.nd])
  {
  }

  /** Neither a code nor a run length of the packed sizes takes more than 7 bits. */
  lemma {:induction false} PackedLen(hd: Header, used: nat, out: seq<nat>)
    requires Sent(hd) && Covers(hd.lens, hd.packed) && Packing.Expand(hd.packed, []).Some?
             && |hd.lens.sizes| == |hd.lens.codes| == 19
    requires Packing.ReadTo(hd.packed, used, out)
    ensures used <= |hd.packed| && Len(PackedFields(hd.lens, hd.packed[used..])) <= 7 * (|hd.packed| - used)
    decreases |hd.packed| - used
  {
    hide *;
    var p := hd.packed;
    IsWithin(p, used, out);
    PackedStep(hd.lens, p, used, out);
    if used == |p| {
      LenNone();
    } else {
      SymbolHasCode(hd, used, out);
      var f := CodeField(hd.lens, p[used]);
      if p[used] < 16 {
        PackedLen(hd, used + 1, out + [p[used]]);
        Append([f], PackedFields(hd.lens, p[used + 1..]));
      } else {
        var x := Field(p[used + 1], Packing.ExtraBits(p[used]));
        ExtraWidth(p[used]);
        PackedLen(hd, used + 2,
                  out + Packing.Repeat(if p[used] == 16 then out[|out| - 1] else 0,
                                       p[used + 1] + Packing.RunBase(p[used])));
        Append([f], [x] + PackedFields(hd.lens, p[used + 2..]));
        Append([x], PackedFields(hd.lens, p[used + 2..]));
        Single(x);
      }
      Single(f);
    }
  }

  lemma IsWithin(p: seq<nat>, used: nat, out: seq<nat>)
    requires Packing.ReadTo(p, used, out)
    ensures used <= |p|
  {
  }

  lemma LenNone()
    ensures Len([]) == 0
  {
  }

  lemma {:induction false} SizeFieldsLen(sizes: seq<nat>, i: nat, nb: nat)
    requires |sizes| == 19 && i <= nb <= 19
    ensures Len(SizeFields(sizes, i, nb)) == 3 * (nb - i)
    decreases nb - i
  {
    if i < nb {
      SwizzleIsPermutation(i);
      SizeFieldsLen(sizes, i + 1, nb);
      Append([Field(sizes[SWIZZLE[i]], 3)], SizeFields(sizes, i + 1, nb));
      Single(Field(sizes[SWIZZLE[i]], 3));
    }
  }

  lemma HeaderLen(hd: Header, lit: seq<nat>, dist: seq<nat>)
    requires Describes(hd, lit, dist) && Shaped(hd) && |hd.packed| <= 316
    ensures Len(HeaderFields(hd)) <= 2283
  {
    DescribesFacts(hd, lit, dist);
    HeaderFieldsAre(hd);
    CountFieldsAre(hd);
    hide *;
    var a, b, c := [Field(hd.nl - 257, 5)], [Field(hd.nd - 1, 5)], [Field(hd.nb - 4, 4)];
    var sf, pf := SizeFields(hd.lens.sizes, 0, hd.nb), PackedFields(hd.lens, hd.packed);
    Append(a + (b + c), sf + pf);
    Append(sf, pf);
    Append(a, b + c);
    Append(b, c);
    Single(Field(hd.nl - 257, 5));
    Single(Field(hd.nd - 1, 5));
    Single(Field(hd.nb - 4, 4));
    SizeFieldsLen(hd.lens.sizes, 0, hd.nb);
    NothingRead(hd.packed);
    PackedLen(hd, 0, []);
  }

  // ----- the decompressor's side

  /** The array holds the first i sizes sent, at their places, and zeros elsewhere. */
  ghost predicate SizesRead(a: seq<nat>, sizes: seq<nat>, i: nat) {
    |a| == |sizes| == 19 && forall s: nat :: s < 19 ==> a[s] == if Place(s) < i then sizes[s] else 0
  }

  lemma NoneRead(a: seq<nat>, sizes: seq<nat>)
    requires |a| == |sizes| == 19 && forall s :: 0 <= s < 19 ==> a[s] == 0
    ensures SizesRead(a, sizes, 0)
  {
  }

  lemma OneRead(a: seq<nat>, sizes: seq<nat>, i: nat)
    requires SizesRead(a, sizes, i) && i < 19 && |a| == |sizes| == 19
    ensures |SWIZZLE| == 19 && SWIZZLE[i] < 19 && SizesRead(a[SWIZZLE[i] := sizes[SWIZZLE[i]]], sizes, i + 1)
  {
    SwizzleIsPermutation(i);
    forall s: nat | s < 19 && s != SWIZZLE[i] ensures Place(s) != i { }
  }

  lemma AllRead(hd: Header, a: seq<nat>)
    requires Sent(hd) && SizesRead(a, hd.lens.sizes, hd.nb)
    ensures a == hd.lens.sizes && DecodeTable.Accepts(a) && |a| == 19 && forall s :: 0 <= s < 19 ==> a[s] <= 15
  {
  }

  lemma Fields3(a: seq<Field>, b: seq<Field>, c: seq<Field>, d: seq<Field>)
    ensures a + (b + c) + d == a + (b + (c + d))
  {
  }

  /** The three numbers of codes. */
  method ReadCounts(bitBuf: Input, ghost hd: Header, ghost fs: seq<Field>, ghost rest: Input)
    returns (nl: nat, nd: nat, nb: nat, bitBuf': Input)
    requires Sent(hd) && Shaped(hd) && InflateBlock.Unread(bitBuf, CountFields(hd) + fs, rest)
    ensures nl == hd.nl && nd == hd.nd && nb == hd.nb && InflateBlock.Unread(bitBuf', fs, rest)
  {
    SentFacts(hd);
    CountFieldsAre(hd);
    hide *;
    ghost var a, b, c := [Field(hd.nl - 257, 5)], [Field(hd.nd - 1, 5)], [Field(hd.nb - 4, 4)];
    Fields3(a, b, c, fs);
    nl, bitBuf' := InflateBlock.GetBits(bitBuf, 5, hd.nl - 257, b + (c + fs), rest);
    nd, bitBuf' := InflateBlock.GetBits(bitBuf', 5, hd.nd - 1, c + fs, rest);
    nb, bitBuf' := InflateBlock.GetBits(bitBuf', 4, hd.nb - 4, fs, rest);
    nl, nd, nb := nl + 257, nd + 1, nb + 4;
  }

  /** The sizes of the code-size code, and its decoding tables. */
  method ReadLens(bitBuf: Input, nb: nat, lookUp: array<int>, tree: array<int>, ghost hd: Header, ghost fs: seq<Field>,
                  ghost rest: Input)
    returns (bitBuf': Input, ok: bool, ghost P: seq<DecodeTable.Node>)
    requires Sent(hd) && Shaped(hd) && nb == hd.nb && |hd.lens.sizes| == |hd.lens.codes| == 19
    requires InflateBlock.Unread(bitBuf, SizeFields(hd.lens.sizes, 0, hd.nb) + fs, rest)
    requires lookUp != tree && lookUp.Length == 1024 && tree.Length == 576
    modifies lookUp, tree
    ensures ok && InflateBlock.Unread(bitBuf', fs, rest) && InflateBlock.Built(lookUp, tree, hd.lens.sizes, P)
  {
    hide *;
    var codeSize;
    codeSize, bitBuf' := ReadLenSizes(bitBuf, nb, hd, fs, rest);
    AllRead(hd, codeSize[..]);
    WholeVector(codeSize[..]);
    ok, P := Build(codeSize, lookUp, tree, hd.lens.sizes);
  }

  lemma WholeVector(sizes: seq<nat>)
    ensures sizes == sizes[..|sizes|] && InflateBlock.NoneFrom(sizes, |sizes|)
  {
  }

  method ReadLenSizes(bitBuf: Input, nb: nat, ghost hd: Header, ghost fs: seq<Field>, ghost rest: Input)
    returns (codeSize: array<nat>, bitBuf': Input)
    requires Sent(hd) && Shaped(hd) && nb == hd.nb && |hd.lens.sizes| == |hd.lens.codes| == 19
    requires InflateBlock.Unread(bitBuf, SizeFields(hd.lens.sizes, 0, hd.nb) + fs, rest)
    ensures fresh(codeSize) && InflateBlock.Unread(bitBuf', fs, rest) && SizesRead(codeSize[..], hd.lens.sizes, nb)
  {
    SentFacts(hd);
    hide *;
    bitBuf' := bitBuf;
    codeSize := new nat[19](_ => 0);
    NoneRead(codeSize[..], hd.lens.sizes);
    for counter := 0 to nb
      invariant SizesRead(codeSize[..], hd.lens.sizes, counter)
      invariant InflateBlock.Unread(bitBuf', SizeFields(hd.lens.sizes, counter, hd.nb) + fs, rest)
    {
      bitBuf' := ReadLenSize(bitBuf', counter, codeSize, hd, fs, rest);
    }
    SizeStep(hd.lens.sizes, nb, nb);
    assert [] + fs == fs;
  }

  method ReadLenSize(bitBuf: Input, counter: nat, codeSize: array<nat>, ghost hd: Header, ghost fs: seq<Field>,
                     ghost rest: Input)
    returns (bitBuf': Input)
    requires |hd.lens.sizes| == 19 && codeSize.Length == 19 && counter < hd.nb <= 19
             && forall s :: 0 <= s < 19 ==> hd.lens.sizes[s] < 8
    requires SizesRead(codeSize[..], hd.lens.sizes, counter)
    requires InflateBlock.Unread(bitBuf, SizeFields(hd.lens.sizes, counter, hd.nb) + fs, rest)
    modifies codeSize
    ensures SizesRead(codeSize[..], hd.lens.sizes, counter + 1)
    ensures InflateBlock.Unread(bitBuf', SizeFields(hd.lens.sizes, counter + 1, hd.nb) + fs, rest)
  {
    ThreeBits();
    hide *;
    SizeStep(hd.lens.sizes, counter, hd.nb);
    OneRead(codeSize[..], hd.lens.sizes, counter);
    ghost var f, before := [Field(hd.lens.sizes[SWIZZLE[counter]], 3)], codeSize[..];
    Regroup(f, SizeFields(hd.lens.sizes, counter + 1, hd.nb), fs);
    var s;
    s, bitBuf' := InflateBlock.GetBits(bitBuf, 3, hd.lens.sizes[SWIZZLE[counter]],
                                       SizeFields(hd.lens.sizes, counter + 1, hd.nb) + fs, rest);
    SameOrder();
    codeSize[DEZIGZAG[counter]] := s;
    assert codeSize[..] == before[SWIZZLE[counter] := s];
  }

  lemma ThreeBits()
    ensures Pow2(3) == 8
  {
  }

  /** Tables for the first sizes of a vector without used symbols behind them. */
  method Build(codeSize: array<nat>, lookUp: array<int>, tree: array<int>, ghost sizes: seq<nat>)
    returns (ok: bool, ghost P: seq<DecodeTable.Node>)
    requires codeSize.Length <= |sizes| <= 288 && codeSize[..] == sizes[..codeSize.Length]
    requires InflateBlock.NoneFrom(sizes, codeSize.Length) && DecodeTable.Accepts(sizes)
    requires forall s :: 0 <= s < |sizes| ==> sizes[s] <= 15
    requires lookUp != tree && lookUp.Length == 1024 && tree.Length == 576
    modifies lookUp, tree
    ensures ok && InflateBlock.Built(lookUp, tree, sizes, P)
  {
    hide *;
    ghost var m := codeSize.Length;
    ghost var z := codeSize[..];
    assert forall i :: 0 <= i < m ==> codeSize[i] == z[i] == sizes[i];
    AcceptsPrefix(sizes, m);
    TableSizes();
    ok, P := DecodeTable.BuildTable(codeSize, lookUp, tree);
    NowBuilt(lookUp, tree, sizes, P, m);
  }

  lemma NowBuilt(lookUp: array<int>, tree: array<int>, sizes: seq<nat>, P: seq<DecodeTable.Node>, m: nat)
    requires m <= |sizes| && InflateBlock.NoneFrom(sizes, m) && DecodeTable.Ready(sizes[..m], P, lookUp[..], tree[..])
    ensures InflateBlock.Built(lookUp, tree, sizes, P)
  {
  }

  lemma {:induction false} UsedPrefix(sizes: seq<nat>, m: nat, k: nat)
    requires InflateBlock.NoneFrom(sizes, m) && k <= 15
    ensures DecodeTable.UsedSyms(sizes, k) == DecodeTable.UsedSyms(sizes[..m], k)
    ensures Units(sizes, k, 15) == Units(sizes[..m], k, 15)
  {
    if k > 0 {
      UsedPrefix(sizes, m, k - 1);
      InflateBlock.CountPrefix(sizes, m, k, |sizes|);
    }
  }

  lemma AcceptsPrefix(sizes: seq<nat>, m: nat)
    requires InflateBlock.NoneFrom(sizes, m)
    ensures m <= |sizes| && (DecodeTable.Accepts(sizes[..m]) <==> DecodeTable.Accepts(sizes))
  {
    UsedPrefix(sizes, m, 15);
  }

  /** The packed code sizes, symbol by symbol from the bit buffer. */
  method ReadPacked(bitBuf: Input, lookUp: array<int>, tree: array<int>, total: nat, ghost hd: Header,
                    ghost P: seq<DecodeTable.Node>, ghost sizes: seq<nat>, ghost fs: seq<Field>, ghost rest: Input)
    returns (lenCodes: array<nat>, ok: bool, bitBuf': Input)
    requires Sent(hd) && Covers(hd.lens, hd.packed) && |hd.lens.sizes| == |hd.lens.codes| == 19
    requires Packing.Expand(hd.packed, []) == Some(sizes) && |sizes| == total <= 320
    requires InflateBlock.Built(lookUp, tree, hd.lens.sizes, P)
             && InflateBlock.Unread(bitBuf, PackedFields(hd.lens, hd.packed) + fs, rest)
    ensures ok && InflateBlock.Unread(bitBuf', fs, rest) && lenCodes.Length == 457 && lenCodes[..total] == sizes
  {
    hide *;
    lenCodes := new nat[457](_ => 0);
    var counter: nat := 0;
    bitBuf' := bitBuf;
    ghost var p, used: nat := hd.packed, 0;
    NothingRead(p);
    assert lenCodes[..0] == [];
    while counter < total
      invariant counter <= total && used <= |p| && Packing.ReadTo(p, used, lenCodes[..counter])
      invariant InflateBlock.Unread(bitBuf', PackedFields(hd.lens, p[used..]) + fs, rest)
      decreases total - counter
    {
      MoreToRead(p, used, lenCodes[..counter], sizes);
      counter, used, ok, bitBuf' := ReadOne(bitBuf', lookUp, tree, lenCodes, counter, hd, P, used, sizes, fs, rest);
      if !ok { return; }
    }
    ok := counter == total;
    AllUnpacked(p, used, lenCodes[..counter], sizes);
    PackedStep(hd.lens, p, used, sizes);
    assert [] + fs == fs;
  }

  lemma MoreToRead(p: seq<nat>, used: nat, out: seq<nat>, sizes: seq<nat>)
    requires Packing.ReadTo(p, used, out) && Packing.Expand(p, []) == Some(sizes) && |out| < |sizes|
    ensures used < |p|
  {
    assert p[..|p|] == p;
  }

  lemma AllUnpacked(p: seq<nat>, used: nat, out: seq<nat>, sizes: seq<nat>)
    requires Packing.ReadTo(p, used, out) && Packing.Expand(p, []) == Some(sizes) && |out| == |sizes|
    ensures used == |p| && out == sizes
  {
    assert p[..|p|] == p;
    if used < |p| { Packing.LaterIsMore(p, used, out, |p|); }
  }

  lemma NotTooMany(p: seq<nat>, used: nat, out: seq<nat>, sizes: seq<nat>)
    requires Packing.ReadTo(p, used, out) && Packing.Expand(p, []) == Some(sizes)
    ensures |out| <= |sizes|
  {
    assert p[..|p|] == p;
    if used < |p| { Packing.LaterIsMore(p, used, out, |p|); }
  }

  method ReadOne(bitBuf: Input, lookUp: array<int>, tree: array<int>, lenCodes: array<nat>, counter: nat,
                 ghost hd: Header, ghost P: seq<DecodeTable.Node>, ghost used: nat, ghost sizes: seq<nat>,
                 ghost fs: seq<Field>, ghost rest: Input)
    returns (counter': nat, ghost used': nat, ok: bool, bitBuf': Input)
    requires Sent(hd) && Covers(hd.lens, hd.packed) && |hd.lens.sizes| == |hd.lens.codes| == 19
             && Packing.Expand(hd.packed, []) == Some(sizes)
    requires |sizes| <= 320 && lenCodes.Length == 457 && counter < |sizes|
             && Packing.ReadTo(hd.packed, used, lenCodes[..counter]) && used < |hd.packed|
    requires InflateBlock.Built(lookUp, tree, hd.lens.sizes, P)
             && InflateBlock.Unread(bitBuf, PackedFields(hd.lens, hd.packed[used..]) + fs, rest)
    modifies lenCodes
    ensures ok && counter < counter' <= |sizes| && used' <= |hd.packed|
            && Packing.ReadTo(hd.packed, used', lenCodes[..counter'])
    ensures InflateBlock.Unread(bitBuf', PackedFields(hd.lens, hd.packed[used'..]) + fs, rest)
  {
    hide *;
    ok := true;
    ghost var p, out, h := hd.packed, lenCodes[..counter], hd.lens;
    PackedStep(h, p, used, out);
    SymbolHasCode(hd, used, out);
    ghost var x := if p[used] < 16 then PackedFields(h, p[used + 1..])
                   else [Field(p[used + 1], Packing.ExtraBits(p[used]))] + PackedFields(h, p[used + 2..]);
    Regroup([CodeField(h, p[used])], x, fs);
    var dist: int;
    dist, bitBuf' := InflateBlock.DecodeSymbol(lookUp, tree, bitBuf, h, 19, P, p[used], x + fs, rest);
    if dist < 16 {
      lenCodes[counter] := dist;
      counter', used' := counter + 1, used + 1;
      assert lenCodes[..counter'] == out + [dist];
    } else {
      if dist == 16 && counter == 0 { return counter, used, false, bitBuf'; }
      var s;
      Regroup([Field(p[used + 1], Packing.ExtraBits(p[used]))], PackedFields(h, p[used + 2..]), fs);
      s, bitBuf' := InflateBlock.GetBits(bitBuf', Packing.ExtraBits(dist), p[used + 1],
                                         PackedFields(h, p[used + 2..]) + fs, rest);
      s := s + Packing.RunBase(dist);
      BaseIsPositive(dist);
      counter' := Packing.FillRun(lenCodes, counter, s, if dist == 16 then lenCodes[counter - 1] else 0);
      used' := used + 2;
    }
    NotTooMany(p, used', lenCodes[..counter'], sizes);
  }

  lemma BaseIsPositive(sym: nat)
    requires 16 <= sym <= 18
    ensures Packing.RunBase(sym) >= 3
  {
  }

  /** The header of a dynamic block is read: the code sizes come out as they went in. */
  method ReadHeader(bitBuf: Input, ghost hd: Header, ghost lit: seq<nat>, ghost dist: seq<nat>, ghost fs: seq<Field>,
                    ghost rest: Input)
    returns (ok: bool, litSizes: array<nat>, distSizes: array<nat>, bitBuf': Input)
    requires Describes(hd, lit, dist) && Shaped(hd) && InflateBlock.Unread(bitBuf, HeaderFields(hd) + fs, rest)
    ensures ok && InflateBlock.Unread(bitBuf', fs, rest)
    ensures fresh(litSizes) && fresh(distSizes) && litSizes.Length <= |lit| && distSizes.Length <= |dist|
    ensures litSizes[..] == lit[..litSizes.Length] && InflateBlock.NoneFrom(lit, litSizes.Length)
    ensures distSizes[..] == dist[..distSizes.Length] && InflateBlock.NoneFrom(dist, distSizes.Length)
  {
    DescribesFacts(hd, lit, dist);
    HeaderFieldsAre(hd);
    hide *;
    ghost var sf, pf := SizeFields(hd.lens.sizes, 0, hd.nb), PackedFields(hd.lens, hd.packed);
    Fields3(CountFields(hd), sf, pf, fs);
    var nl, nd, nb, lenCodes;
    nl, nd, nb, bitBuf' := ReadCounts(bitBuf, hd, sf + (pf + fs), rest);
    lenCodes, ok, bitBuf' := ReadSizes(bitBuf', nb, nl + nd, hd, lit[..nl] + dist[..nd], fs, rest);
    litSizes, distSizes := SplitSizes(lenCodes, nl, nd, lit[..nl], dist[..nd]);
  }

  method ReadSizes(bitBuf: Input, nb: nat, total: nat, ghost hd: Header, ghost sizes: seq<nat>, ghost fs: seq<Field>,
                   ghost rest: Input)
    returns (lenCodes: array<nat>, ok: bool, bitBuf': Input)
    requires Sent(hd) && Shaped(hd) && Covers(hd.lens, hd.packed) && |hd.lens.sizes| == |hd.lens.codes| == 19
             && nb == hd.nb <= 19
    requires Packing.Expand(hd.packed, []) == Some(sizes) && |sizes| == total <= 320
    requires InflateBlock.Unread(bitBuf, SizeFields(hd.lens.sizes, 0, hd.nb) + (PackedFields(hd.lens, hd.packed) + fs),
                                 rest)
    ensures ok && InflateBlock.Unread(bitBuf', fs, rest) && lenCodes.Length == 457 && lenCodes[..total] == sizes
  {
    hide *;
    var lookUp, tree := new int[1024], new int[576];
    ghost var P;
    bitBuf', ok, P := ReadLens(bitBuf, nb, lookUp, tree, hd, PackedFields(hd.lens, hd.packed) + fs, rest);
    lenCodes, ok, bitBuf' := ReadPacked(bitBuf', lookUp, tree, total, hd, P, sizes, fs, rest);
  }

  method SplitSizes(lenCodes: array<nat>, nl: nat, nd: nat, ghost lit: seq<nat>, ghost dist: seq<nat>)
    returns (litSizes: array<nat>, distSizes: array<nat>)
    requires nl == |lit| && nd == |dist| && nl + nd <= lenCodes.Length && lenCodes[..nl + nd] == lit + dist
    ensures fresh(litSizes) && fresh(distSizes) && litSizes[..] == lit && distSizes[..] == dist
  {
    assert forall i :: 0 <= i < nl + nd ==> lenCodes[i] == lenCodes[..nl + nd][i];
    litSizes := new nat[nl](i requires 0 <= i < nl reads lenCodes => lenCodes[i]);
    distSizes := new nat[nd](i requires 0 <= i < nd reads lenCodes => lenCodes[nl + i]);
  }

  lemma TableSizes()
    ensures DecodeTable.FAST_LOOKUP_SIZE == 1024
            && DecodeTable.MAX_HUFF_SYMBOLS == MinRedundancy.MAX_HUFF_SYMBOLS == 288
  {
  }
}
