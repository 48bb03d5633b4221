/**
  The body of a compressed block: its type, the header of a dynamic block, then the tokens. Both sides:
  tdefl_compress_block writes one, the decompressor builds its tables from it and decodes it.
 */
module BlockForm {
  import opened Arith
  import opened Bits
  import opened BitStream
  import opened BitOutput
  import opened Tokens
  import opened LzCodes
  import opened CanonicalCode
  import opened BitEmitter
  import opened DynamicHeader
  import opened InflateBlock
  import MinRedundancy
  import HuffmanTable
  import HuffmanRoundTrip
  import DecodeTable
  import NearOptimal

  // ----- the static code

  /** Section 3.2.6 of RFC 1951. */
  function StaticSize(s: nat): nat {
    if s < 144 then 8 else if s < 256 then 9 else if s < 280 then 7 else 8
  }

  function StaticLit(): (r: seq<nat>)
    ensures |r| == 288 && forall s :: 0 <= s < 288 ==> r[s] == StaticSize(s)
  {
    seq(288, s requires 0 <= s < 288 => StaticSize(s))
  }

  function StaticDist(): (r: seq<nat>)
    ensures |r| == 32 && forall s :: 0 <= s < 32 ==> r[s] == 5
  {
    seq(32, _ => 5)
  }

  function Within(n: nat, from: nat, until: nat): nat
    requires from <= until
  {
    if n <= from then 0 else if n <= until then n - from else until - from
  }

  lemma {:induction false} StaticCount(sizes: seq<nat>, l: nat, n: nat)
    requires |sizes| == 288 && n <= 288 && forall s :: 0 <= s < 288 ==> sizes[s] == StaticSize(s)
    ensures CountOf(sizes, l, n)
            == if l == 8 then Within(n, 0, 144) + Within(n, 280, 288)
               else if l == 9 then Within(n, 144, 256)
               else if l == 7 then Within(n, 256, 280) else 0
  {
    if n > 0 { StaticCount(sizes, l, n - 1); }
  }

  lemma {:induction false} SameCount(sizes: seq<nat>, c: nat, l: nat, n: nat)
    requires n <= |sizes| && forall s :: 0 <= s < |sizes| ==> sizes[s] == c
    ensures CountOf(sizes, l, n) == if l == c then n else 0
  {
    if n > 0 { SameCount(sizes, c, l, n - 1); }
  }

  lemma {:induction false} NoUnits(sizes: seq<nat>, k: nat, m: nat)
    requires k <= m && forall l :: 1 <= l <= k ==> CountOf(sizes, l, |sizes|) == 0
    ensures Units(sizes, k, m) == 0
  {
    if k > 0 { NoUnits(sizes, k - 1, m); }
  }

  lemma StaticLitIsComplete(sizes: seq<nat>)
    requires |sizes| == 288 && forall s :: 0 <= s < 288 ==> sizes[s] == StaticSize(s)
    ensures Complete(sizes, 15) && DecodeTable.Accepts(sizes)
  {
    forall l ensures l == 7 ==> CountOf(sizes, l, 288) == 24 { if l == 7 { StaticCount(sizes, l, 288); } }
    StaticCount(sizes, 8, 288);
    StaticCount(sizes, 9, 288);
    forall l: nat | 1 <= l <= 6 ensures CountOf(sizes, l, 288) == 0 { StaticCount(sizes, l, 288); }
    NoUnits(sizes, 6, 15);
    HuffmanRoundTrip.UnitsBeyond(sizes, 9, 15, 15);
    assert Pow2(6) == 64 && Pow2(7) == 128 && Pow2(8) == 256;
    assert Units(sizes, 7, 15) == 24 * 256;
    assert Units(sizes, 8, 15) == 24 * 256 + 152 * 128;
    assert Units(sizes, 9, 15) == 24 * 256 + 152 * 128 + 112 * 64;
    Pow2Values();
  }

  lemma StaticDistIsComplete(sizes: seq<nat>)
    requires |sizes| == 32 && forall s :: 0 <= s < 32 ==> sizes[s] == 5
    ensures Complete(sizes, 15) && DecodeTable.Accepts(sizes)
  {
    SameCount(sizes, 5, 5, 32);
    forall l: nat | 1 <= l <= 4 ensures CountOf(sizes, l, 32) == 0 { SameCount(sizes, 5, l, 32); }
    NoUnits(sizes, 4, 15);
    HuffmanRoundTrip.UnitsBeyond(sizes, 5, 15, 15);
    assert Units(sizes, 5, 15) == 32 * Pow2(10);
    Pow2Values();
  }

  /** Both sides fill in the static code sizes alike. */
  method StaticSizes() returns (lit: array<nat>, dist: array<nat>)
    ensures fresh(lit) && fresh(dist) && lit != dist && lit[..] == StaticLit() && dist[..] == StaticDist()
  {
    lit := new nat[288](_ => 0);
    var i: nat := 0;
    while i <= 143
      invariant i <= 144 && forall s :: 0 <= s < i ==> lit[s] == StaticSize(s)
    { lit[i] := 8; i := i + 1; }
    while i <= 255
      invariant 144 <= i <= 256 && forall s :: 0 <= s < i ==> lit[s] == StaticSize(s)
    { lit[i] := 9; i := i + 1; }
    while i <= 279
      invariant 256 <= i <= 280 && forall s :: 0 <= s < i ==> lit[s] == StaticSize(s)
    { lit[i] := 7; i := i + 1; }
    while i <= 287
      invariant 280 <= i <= 288 && forall s :: 0 <= s < i ==> lit[s] == StaticSize(s)
    { lit[i] := 8; i := i + 1; }
    dist := new nat[32](_ => 5);
  }

  // ----- what a block is

  datatype Form = Static | Dynamic(hd: Header)

  /** The form names the code sizes of the tables, and the decoder accepts those. */
  ghost predicate Formed(form: Form, tb: Tables) {
    && DecodeTable.Accepts(tb.lit.sizes) && DecodeTable.Accepts(tb.dist.sizes)
    && match form
       case Static => tb.lit.sizes == StaticLit() && tb.dist.sizes == StaticDist()
       case Dynamic(hd) => Describes(hd, tb.lit.sizes, tb.dist.sizes)
  }

  ghost predicate Block(form: Form, tb: Tables, ts: seq<Token>) {
    Formed(form, tb) && Decodable(tb, ts)
  }

  /** The block type and what follows it up to the tokens. */
  ghost function FormFields(form: Form): seq<Field>
    requires form.Dynamic? ==> Shaped(form.hd)
  {
    match form
    case Static => [Field(1, 2)]
    case Dynamic(hd) => [Field(2, 2)] + HeaderFields(hd)
  }

  lemma BlockIs(form: Form, tb: Tables, ts: seq<Token>)
    requires Block(form, tb, ts)
    ensures Formed(form, tb) && Decodable(tb, ts) && Writable(tb) && AllRecordable(ts)
            && (form.Dynamic? ==> Shaped(form.hd))
  {
  }

  ghost function BlockStream(form: Form, tb: Tables, ts: seq<Token>): seq<Field>
    requires Block(form, tb, ts)
  {
    BlockIs(form, tb, ts);
    FormFields(form) + BlockFields(tb, ts)
  }

  // ----- writing a block

  lemma {:induction false} TallyCounts(ts: seq<Token>, i: nat)
    requires AllRecordable(ts) && i < |ts|
    ensures LitTally(ts, LitSym(ts[i])) > 0
    ensures ts[i].Match? ==> DistTally(ts, DistSym(ts[i].dist - 1)) > 0
    decreases |ts|
  {
    if i < |ts| - 1 {
      TallyCounts(ts[..|ts| - 1], i);
      assert ts[..|ts| - 1][i] == ts[i];
    }
  }

  lemma {:induction false} NeverCounted(ts: seq<Token>, s: nat)
    requires AllRecordable(ts)
    ensures s == END_OF_BLOCK || s > 285 ==> LitTally(ts, s) == 0
    ensures s >= 30 ==> DistTally(ts, s) == 0
    decreases |ts|
  {
    if ts != [] { NeverCounted(ts[..|ts| - 1], s); }
  }

  /** The counts of a dynamic block: those of its tokens and one for its end. */
  lemma EndCounted(lit: seq<nat>, dist: seq<nat>, ts: seq<Token>)
    requires Counted(lit, dist, ts) && |ts| + 1 < 0x1_0000
    ensures |lit| == 288 && |dist| == 32 && lit[256] == 0
    ensures Sum(lit[256 := 1]) < 0x1_0000 && Sum(dist) < 0x1_0000
  {
    NeverCounted(ts, 256);
    SumUpdate(lit, 256, 1);
  }

  /** Every token's symbols are counted, so they have codes; the symbols that never occur have none. */
  lemma TablesAreDecodable(lit: seq<nat>, dist: seq<nat>, ts: seq<Token>, tb: Tables)
    requires Counted(lit, dist, ts) && |lit| == 288 && |dist| == 32
    requires HuffmanTable.Table(lit[256 := 1], tb.lit.sizes, tb.lit.codes, 15)
             && HuffmanTable.Table(dist, tb.dist.sizes, tb.dist.codes, 15)
    ensures Decodable(tb, ts) && |tb.lit.sizes| == 288 && |tb.dist.sizes| == 32
    ensures (forall s :: 0 <= s < 288 ==> tb.lit.sizes[s] <= 15) && (forall s :: 0 <= s < 32 ==> tb.dist.sizes[s] <= 15)
    ensures (forall s :: 286 <= s < 288 ==> tb.lit.sizes[s] == 0)
            && (forall s :: 30 <= s < 32 ==> tb.dist.sizes[s] == 0)
  {
    TableIsCoded(lit[256 := 1], tb.lit, 15);
    TableIsCoded(dist, tb.dist, 15);
    CodedSizes(tb);
    hide *;
    CountedSymbols(lit, dist, ts);
    assert forall s :: 0 <= s < 288 && s != 256 ==> lit[256 := 1][s] == lit[s];
    CountedHaveCodes(lit[256 := 1], dist, ts, tb);
  }

  lemma CodedSizes(tb: Tables)
    ensures Coded(tb.lit, 288) ==> |tb.lit.sizes| == |tb.lit.codes| == 288
    ensures Coded(tb.dist, 32) ==> |tb.dist.sizes| == |tb.dist.codes| == 32
  {
  }

  lemma CountedSymbols(lit: seq<nat>, dist: seq<nat>, ts: seq<Token>)
    requires Counted(lit, dist, ts) && |lit| == 288 && |dist| == 32
    ensures AllRecordable(ts)
    ensures forall i :: 0 <= i < |ts| ==>
            Recordable(ts[i]) && LitSym(ts[i]) != 256 && LitSym(ts[i]) < 288 && lit[LitSym(ts[i])] > 0
    ensures forall i :: 0 <= i < |ts| && ts[i].Match? ==>
            0 <= ts[i].dist - 1 < LZ_DICT_SIZE && DistSym(ts[i].dist - 1) < 32 && dist[DistSym(ts[i].dist - 1)] > 0
    ensures (forall s :: 286 <= s < 288 ==> lit[s] == 0) && forall s :: 30 <= s < 32 ==> dist[s] == 0
  {
    forall s | 286 <= s < 288 ensures lit[s] == 0 { NeverCounted(ts, s); }
    forall s | 30 <= s < 32 ensures dist[s] == 0 { NeverCounted(ts, s); }
    forall i | 0 <= i < |ts|
        ensures lit[LitSym(ts[i])] > 0 && (ts[i].Match? ==> dist[DistSym(ts[i].dist - 1)] > 0) { TallyCounts(ts, i); }
    hide LitTally, DistTally, LitSym, DistSym;
  }

  lemma CountedHaveCodes(lit: seq<nat>, dist: seq<nat>, ts: seq<Token>, tb: Tables)
    requires |lit| == 288 && |dist| == 32 && lit[256] == 1 && AllRecordable(ts)
    requires Coded(tb.lit, 288) && Coded(tb.dist, 32) && |tb.lit.sizes| == 288 && |tb.dist.sizes| == 32
    requires forall i :: 0 <= i < |ts| ==> Recordable(ts[i]) && LitSym(ts[i]) < 288 && lit[LitSym(ts[i])] > 0
    requires forall i :: 0 <= i < |ts| && ts[i].Match? ==>
             0 <= ts[i].dist - 1 < LZ_DICT_SIZE && DistSym(ts[i].dist - 1) < 32 && dist[DistSym(ts[i].dist - 1)] > 0
    requires forall s :: 0 <= s < 288 && lit[s] > 0 ==> tb.lit.sizes[s] >= 1
    requires forall s :: 0 <= s < 32 && dist[s] > 0 ==> tb.dist.sizes[s] >= 1
    ensures Decodable(tb, ts)
  {
    hide RevCode, LitSym, DistSym;
  }

  method DynamicTables(litCount: array<nat>, distCount: array<nat>, ghost ts: seq<Token>) returns (tb: Tables)
    requires litCount != distCount && Counted(litCount[..], distCount[..], ts) && |ts| + 1 < 0x1_0000
    modifies litCount
    ensures Decodable(tb, ts) && DecodeTable.Accepts(tb.lit.sizes) && DecodeTable.Accepts(tb.dist.sizes)
    ensures NearFor(tb, ts)
    ensures |tb.lit.sizes| == 288 && |tb.dist.sizes| == 32
    ensures (forall s :: 0 <= s < 288 ==> tb.lit.sizes[s] <= 15) && (forall s :: 0 <= s < 32 ==> tb.dist.sizes[s] <= 15)
    ensures (forall s :: 286 <= s < 288 ==> tb.lit.sizes[s] == 0)
            && (forall s :: 30 <= s < 32 ==> tb.dist.sizes[s] == 0)
  {
    ghost var lc, dc := litCount[..], distCount[..];
    EndCounted(lc, dc, ts);
    Limits();
    hide *;
    litCount[256] := 1;
    assert litCount[..] == lc[256 := 1];
    var lit := TableFor(litCount, 15, lc[256 := 1]);
    var dist := TableFor(distCount, 15, dc);
    tb := Tables(lit, dist);
    TablesAreDecodable(lc, dc, ts, tb);
    IsNearFor(lc, dc, tb, ts);
  }

  /** Both tables are near the best ones for the block's symbols. */
  ghost predicate NearFor(tb: Tables, ts: seq<Token>) {
    exists lit, dist :: NearBoth(lit, dist, tb, ts)
  }

  ghost predicate NearBoth(lit: seq<nat>, dist: seq<nat>, tb: Tables, ts: seq<Token>) {
    && Counted(lit, dist, ts) && |lit| == 288
    && NearOptimal.NearBest(lit[256 := 1], tb.lit.sizes) && NearOptimal.NearBest(dist, tb.dist.sizes)
  }

  lemma IsNearFor(lit: seq<nat>, dist: seq<nat>, tb: Tables, ts: seq<Token>)
    requires Counted(lit, dist, ts) && |lit| == 288
    requires NearOptimal.NearBest(lit[256 := 1], tb.lit.sizes) && NearOptimal.NearBest(dist, tb.dist.sizes)
    ensures NearFor(tb, ts)
  {
    hide Counted, NearOptimal.NearBest;
    assert NearBoth(lit, dist, tb, ts);
  }

  lemma Limits()
    ensures 288 <= Pow2(15) && MinRedundancy.MAX_HUFF_SYMBOLS == 288
  {
    Pow2Values();
  }

  lemma CompleteIsCoded(h: HuffCodes, n: nat)
    requires |h.sizes| == |h.codes| == n && Complete(h.sizes, 15)
    requires forall s :: 0 <= s < n ==> h.codes[s] == RevCode(h.sizes, s)
    ensures Coded(h, n)
  {
    hide RevCode, Units;
    forall s: nat | s < n ensures h.codes[s] < Pow2(h.sizes[s]) { RevCodeFits(h.sizes, s); }
  }

  lemma RevCodeFits(sizes: seq<nat>, s: nat)
    requires s < |sizes|
    ensures RevCode(sizes, s) < Pow2(sizes[s])
  {
  }

  lemma AllHaveCodes(tb: Tables, ts: seq<Token>)
    requires AllRecordable(ts) && Coded(tb.lit, 288) && Coded(tb.dist, 32) && |tb.lit.sizes| == 288
             && |tb.dist.sizes| == 32
    requires (forall s :: 0 <= s < 288 ==> tb.lit.sizes[s] >= 1) && forall s :: 0 <= s < 32 ==> tb.dist.sizes[s] >= 1
    ensures Decodable(tb, ts)
  {
    hide RevCode;
  }

  lemma StaticIsBlock(tb: Tables, ts: seq<Token>)
    requires AllRecordable(ts) && Coded(tb.lit, 288) && Coded(tb.dist, 32)
    requires tb.lit.sizes == StaticLit() && tb.dist.sizes == StaticDist()
    ensures Block(Static, tb, ts)
  {
    StaticLitIsComplete(tb.lit.sizes);
    StaticDistIsComplete(tb.dist.sizes);
    AllHaveCodes(tb, ts);
    hide Decodable, Coded, DecodeTable.Accepts;
  }

  method CodesFor(sizes: array<nat>, ghost n: nat) returns (h: HuffCodes)
    requires sizes.Length == n && Complete(sizes[..], 15) && forall s :: 0 <= s < n ==> sizes[s] >= 1
    ensures h.sizes == sizes[..] && Coded(h, n)
  {
    ghost var z := sizes[..];
    assert forall s :: 0 <= s < n ==> sizes[s] == z[s];
    CompleteIsCodable(z);
    hide *;
    var codes := new nat[sizes.Length](_ => 0);
    HuffmanTable.StaticHuffmanTable(sizes, codes, 15);
    h := HuffCodes(sizes[..], codes[..]);
    CompleteIsCoded(h, n);
  }

  lemma CompleteIsCodable(sizes: seq<nat>)
    requires Complete(sizes, 15)
    ensures Codable(sizes, 15)
  {
  }

  /** tdefl_start_static_block, as far as the tables go. */
  method StaticTables(ghost ts: seq<Token>) returns (tb: Tables)
    requires AllRecordable(ts)
    ensures Block(Static, tb, ts)
  {
    var lit, dist := StaticSizes();
    ghost var ls, ds := lit[..], dist[..];
    assert forall s :: 0 <= s < 288 ==> lit[s] == ls[s] >= 1;
    assert forall s :: 0 <= s < 32 ==> dist[s] == ds[s];
    hide *;
    StaticComplete(ls, ds);
    var litCodes := CodesFor(lit, 288);
    var distCodes := CodesFor(dist, 32);
    tb := Tables(litCodes, distCodes);
    StaticIsBlock(tb, ts);
  }

  lemma StaticComplete(lit: seq<nat>, dist: seq<nat>)
    requires lit == StaticLit() && dist == StaticDist()
    ensures Complete(lit, 15) && Complete(dist, 15)
  {
    StaticLitIsComplete(lit);
    StaticDistIsComplete(dist);
  }

  lemma Room(out: Output, fs: seq<Field>)
    requires out.Valid(fs) && Len(fs) < 8 * out.end
    ensures out.pos <= out.buf.Length && Settled(out.buf[..out.pos], out.bitBuffer, out.bitsIn, fs)
  {
    RoomIfFits(out, fs);
    assert out.buf[..][..out.pos] == out.buf[..out.pos];
  }

  lemma FormLen(form: Form, tb: Tables)
    requires Formed(form, tb) && (form.Dynamic? ==> Shaped(form.hd) && |form.hd.packed| <= 316)
    ensures Len(FormFields(form)) <= 2285 && (form.Static? ==> Len(FormFields(form)) == 2)
  {
    match form
    case Static => Single(Field(1, 2));
    case Dynamic(hd) =>
      Single(Field(2, 2));
      Append([Field(2, 2)], HeaderFields(hd));
      HeaderLen(hd, tb.lit.sizes, tb.dist.sizes);
  }

  /** tdefl_start_static_block and tdefl_start_dynamic_block. */
  method StartBlock(out: Output, litCount: array<nat>, distCount: array<nat>, isStatic: bool, ghost fs: seq<Field>,
                    ghost ts: seq<Token>)
    returns (tb: Tables, ghost form: Form)
    requires out.Valid(fs) && AllRecordable(ts) && litCount != distCount
    requires !isStatic ==> Counted(litCount[..], distCount[..], ts) && |ts| + 1 < 0x1_0000
    modifies litCount, out`pos, out`bitBuffer, out`bitsIn, out.buf
    ensures Block(form, tb, ts) && form.Static? == isStatic
    ensures form.Dynamic? ==> Shaped(form.hd) && |form.hd.packed| <= 316 && NearFor(tb, ts)
    ensures out.Valid(fs + FormFields(form))
  {
    TwoBits();
    hide *;
    if isStatic {
      tb := StaticTables(ts);
      form := Static;
      out.PutBits(1, 2, fs);
      StaticFields();
    } else {
      tb := DynamicTables(litCount, distCount, ts);
      var hd := MakeHeader(tb.lit.sizes, tb.dist.sizes);
      form := Dynamic(hd);
      DynamicIsBlock(form, tb, ts);
      out.PutBits(2, 2, fs);
      WriteHeader(out, hd, fs + [Field(2, 2)], tb.lit.sizes, tb.dist.sizes);
      DynamicFields(form, fs);
    }
  }

  lemma TwoBits()
    ensures Pow2(2) == 4
  {
  }

  lemma StaticFields()
    ensures FormFields(Static) == [Field(1, 2)]
  {
  }

  lemma DynamicFields(form: Form, fs: seq<Field>)
    requires form.Dynamic? && Shaped(form.hd)
    ensures fs + [Field(2, 2)] + HeaderFields(form.hd) == fs + FormFields(form)
  {
  }

  lemma DynamicIsBlock(form: Form, tb: Tables, ts: seq<Token>)
    requires form.Dynamic? && Describes(form.hd, tb.lit.sizes, tb.dist.sizes) && Decodable(tb, ts)
    requires DecodeTable.Accepts(tb.lit.sizes) && DecodeTable.Accepts(tb.dist.sizes)
    ensures Block(form, tb, ts) && Shaped(form.hd)
  {
  }

  /** What keeps a block small: few tokens, and tables near the best ones. */
  ghost predicate Compact(form: Form, tb: Tables, ts: seq<Token>) {
    && AllRecordable(ts) && |Encoded(ts)| <= LZ_CODE_BUF_SIZE
    && (form.Dynamic? ==> |form.hd.packed| <= 316 && NearFor(tb, ts))
  }

  lemma IsCompact(form: Form, tb: Tables, ts: seq<Token>)
    requires AllRecordable(ts) && |Encoded(ts)| <= LZ_CODE_BUF_SIZE
             && (form.Dynamic? ==> |form.hd.packed| <= 316 && NearFor(tb, ts))
    ensures Compact(form, tb, ts)
  {
  }

  /** tdefl_compress_block. The block is complete in the output exactly if it fits there. */
  method CompressBlock(out: Output, codes: seq<Byte>, litCount: array<nat>, distCount: array<nat>, isStatic: bool,
                       ghost fs: seq<Field>, ghost ts: seq<Token>)
    returns (ok: bool, ghost form: Form, ghost tb: Tables)
    requires out.Valid(fs) && AllRecordable(ts) && codes == Encoded(ts) && litCount != distCount
    requires !isStatic ==> Counted(litCount[..], distCount[..], ts) && |ts| + 1 < 0x1_0000
    requires Len(fs) + 2285 < 8 * out.end && out.end + 16 <= out.buf.Length && |codes| <= LZ_CODE_BUF_SIZE
    modifies litCount, out`pos, out`bitBuffer, out`bitsIn, out.buf
    ensures Block(form, tb, ts) && form.Static? == isStatic && Compact(form, tb, ts)
    ensures ok <==> Len(fs + BlockStream(form, tb, ts)) / 8 < out.end
    ensures ok ==> out.Valid(fs + BlockStream(form, tb, ts))
    ensures out.Kept() && out.end <= out.buf.Length
  {
    hide *;
    var t: Tables;
    t, form := StartBlock(out, litCount, distCount, isStatic, fs, ts);
    tb := t;
    BlockIs(form, tb, ts);
    FormLen(form, tb);
    Append(fs, FormFields(form));
    ghost var gs := fs + FormFields(form);
    Room(out, gs);
    ok := CompressFast(out, t, codes, gs, ts);
    StreamIs(form, tb, ts, fs);
    IsCompact(form, tb, ts);
  }

  lemma StreamIs(form: Form, tb: Tables, ts: seq<Token>, fs: seq<Field>)
    requires Block(form, tb, ts)
    ensures Writable(tb) && AllRecordable(ts) && (form.Dynamic? ==> Shaped(form.hd))
    ensures fs + FormFields(form) + BlockFields(tb, ts) == fs + BlockStream(form, tb, ts)
  {
    BlockIs(form, tb, ts);
    StreamParts(form, tb, ts);
    hide *;
    Regroup(fs, FormFields(form), BlockFields(tb, ts));
  }

  lemma StreamParts(form: Form, tb: Tables, ts: seq<Token>)
    requires Block(form, tb, ts) && Writable(tb) && AllRecordable(ts) && (form.Dynamic? ==> Shaped(form.hd))
    ensures BlockStream(form, tb, ts) == FormFields(form) + BlockFields(tb, ts)
  {
    hide FormFields, BlockFields, Writable, Shaped;
  }

  // ----- a static block always fits

  /** Bits per token: a literal takes at most 9, a match at most 31; in the token buffer they take 9 and 25. */
  ghost function Weight(ts: seq<Token>): nat {
    if ts == [] then 0 else Weight(ts[1..]) + if ts[0].Literal? then 9 else 25
  }

  lemma {:induction false} WeightSplit(ts: seq<Token>, us: seq<Token>)
    ensures Weight(ts + us) == Weight(ts) + Weight(us)
  {
    if ts == [] {
      assert ts + us == us;
    } else {
      assert (ts + us)[1..] == ts[1..] + us;
      WeightSplit(ts[1..], us);
    }
  }

  lemma {:induction false} PayloadWeight(ts: seq<Token>)
    requires AllRecordable(ts)
    ensures Weight(ts) == 8 * |Payloads(ts)| + |ts|
  {
    if ts != [] { PayloadWeight(ts[1..]); }
  }

  lemma {:induction false} EncodedWeight(ts: seq<Token>)
    requires AllRecordable(ts)
    ensures Weight(ts) <= 8 * |Encoded(ts)|
    decreases |ts|
  {
    if ts != [] {
      var n := Min(8, |ts|);
      EncodedFirst(ts, n);
      assert ts == ts[..n] + ts[n..];
      WeightSplit(ts[..n], ts[n..]);
      PayloadWeight(ts[..n]);
      hide Payloads, Weight, Encoded;
      EncodedWeight(ts[n..]);
    }
  }

  /** No static code is longer than this. */
  lemma StaticFieldLen(tb: Tables, t: Token)
    requires Writable(tb) && tb.lit.sizes == StaticLit() && tb.dist.sizes == StaticDist() && Recordable(t)
    ensures Len(TokenFields(tb, t)) <= if t.Literal? then 9 else 31
  {
    match t
    case Literal(lit) => Single(CodeField(tb.lit, lit));
    case Match(length, dist) =>
      var n, d := length - 3, dist - 1;
      MatchFieldsAre(tb, n, d);
      FourLen(Field(tb.lit.codes[LenSym(n)], tb.lit.sizes[LenSym(n)]), Field(Low(n, LenExtra(n)), LenExtra(n)),
              Field(tb.dist.codes[DistSym(d)], tb.dist.sizes[DistSym(d)]), Field(Low(d, DistExtra(d)), DistExtra(d)));
  }

  lemma FourLen(a: Field, b: Field, c: Field, d: Field)
    ensures Len([a, b, c, d]) == a.len + b.len + c.len + d.len
  {
    Unfold(a, b, c, d, []);
    Append([a], [b] + ([c] + ([d] + [])));
    Append([b], [c] + ([d] + []));
    Append([c], [d] + []);
    Append([d], []);
    Single(a);
    Single(b);
    Single(c);
    Single(d);
    assert [a, b, c, d] + [] == [a, b, c, d];
  }

  lemma {:induction false} StaticLen(tb: Tables, ts: seq<Token>)
    requires Writable(tb) && tb.lit.sizes == StaticLit() && tb.dist.sizes == StaticDist() && AllRecordable(ts)
    ensures 25 * Len(Fields(tb, ts)) <= 31 * Weight(ts)
  {
    hide TokenFields, Writable, StaticLit, StaticDist;
    if ts != [] {
      StaticLen(tb, ts[1..]);
      StaticFieldLen(tb, ts[0]);
      Append(TokenFields(tb, ts[0]), Fields(tb, ts[1..]));
    }
  }

  /** A static block from a full token buffer takes at most 81267 bytes, so it fits into the output buffer. */
  lemma StaticFits(tb: Tables, ts: seq<Token>)
    requires Block(Static, tb, ts) && AllRecordable(ts) && |Encoded(ts)| <= LZ_CODE_BUF_SIZE
    ensures Len(BlockStream(Static, tb, ts)) <= 650130
  {
    StaticFormed(tb, ts);
    EncodedWeight(ts);
    StaticLen(tb, ts);
    StreamIs(Static, tb, ts, []);
    BlockFieldsAre([], tb, ts);
    StaticFields();
    hide *;
    var f, e := Fields(tb, ts), CodeField(tb.lit, 256);
    assert [] + f + [e] == f + [e] && [] + FormFields(Static) == [Field(1, 2)];
    assert [] + BlockStream(Static, tb, ts) == BlockStream(Static, tb, ts)
           && [] + BlockFields(tb, ts) == BlockFields(tb, ts);
    Append([Field(1, 2)], f + [e]);
    Append(f, [e]);
    Single(Field(1, 2));
    Single(e);
  }

  lemma StaticFormed(tb: Tables, ts: seq<Token>)
    requires Block(Static, tb, ts)
    ensures Writable(tb) && tb.lit.sizes == StaticLit() && tb.dist.sizes == StaticDist()
    ensures |tb.lit.sizes| == |tb.lit.codes| == 288 && CodeField(tb.lit, 256).len == 7
    ensures END_OF_BLOCK == 256 && LZ_CODE_BUF_SIZE == 65536
  {
  }

  // ----- reading a block

  /** Tables and tokens of a block whose final bit and type have been read. */
  method InflateCompressed(isStatic: bool, bitBuf: Input, out: array<Byte>, pos: nat, ghost form: Form,
                           ghost tb: Tables, ghost ts: seq<Token>, ghost rest: Input)
    returns (status: Status, bitBuf': Input, pos': nat)
    requires Block(form, tb, ts) && Writable(tb) && AllRecordable(ts) && (form.Dynamic? ==> Shaped(form.hd))
             && form.Static? == isStatic
    requires Unread(bitBuf, (if form.Static? then [] else HeaderFields(form.hd)) + BlockFields(tb, ts), rest)
    requires pos <= out.Length
    modifies out
    ensures pos' <= out.Length && (status == Done ==> bitBuf' == rest)
    ensures var o := old(out[..pos]); Outcome(status, Expand(ts, o), Delivered(ts, o), out.Length, out[..pos'])
  {
    hide *;
    var litSizes, distSizes, ok;
    litSizes, distSizes, ok, bitBuf' := ReadSizesOf(isStatic, bitBuf, form, tb, ts, rest);
    var lookUp0, tree0, lookUp1, tree1 := new int[1024], new int[576], new int[1024], new int[576];
    ghost var P0, P1;
    BlockFacts(form, tb, ts);
    ok, P1 := Build(distSizes, lookUp1, tree1, tb.dist.sizes);
    ok, P0 := Build(litSizes, lookUp0, tree0, tb.lit.sizes);
    status, bitBuf', pos' := InflateBlock.InflateBlock(lookUp0, tree0, lookUp1, tree1, bitBuf', out, pos, tb, P0, P1,
                                                       ts, rest);
  }

  lemma BlockFacts(form: Form, tb: Tables, ts: seq<Token>)
    requires Block(form, tb, ts)
    ensures Decodable(tb, ts) && |tb.lit.sizes| == 288 && |tb.dist.sizes| == 32
    ensures DecodeTable.Accepts(tb.lit.sizes) && DecodeTable.Accepts(tb.dist.sizes)
    ensures (forall s :: 0 <= s < 288 ==> tb.lit.sizes[s] <= 15) && (forall s :: 0 <= s < 32 ==> tb.dist.sizes[s] <= 15)
    ensures form.Static? ==> tb.lit.sizes == StaticLit() && tb.dist.sizes == StaticDist()
    ensures form.Dynamic? ==> Describes(form.hd, tb.lit.sizes, tb.dist.sizes)
  {
  }

  method ReadSizesOf(isStatic: bool, bitBuf: Input, ghost form: Form, ghost tb: Tables, ghost ts: seq<Token>,
                     ghost rest: Input)
    returns (litSizes: array<nat>, distSizes: array<nat>, ok: bool, bitBuf': Input)
    requires Block(form, tb, ts) && Writable(tb) && AllRecordable(ts) && (form.Dynamic? ==> Shaped(form.hd))
             && form.Static? == isStatic
    requires Unread(bitBuf, (if form.Static? then [] else HeaderFields(form.hd)) + BlockFields(tb, ts), rest)
    ensures fresh(litSizes) && fresh(distSizes) && litSizes.Length <= |tb.lit.sizes|
            && distSizes.Length <= |tb.dist.sizes|
    ensures litSizes[..] == tb.lit.sizes[..litSizes.Length] && InflateBlock.NoneFrom(tb.lit.sizes, litSizes.Length)
    ensures distSizes[..] == tb.dist.sizes[..distSizes.Length] && InflateBlock.NoneFrom(tb.dist.sizes, distSizes.Length)
    ensures ok && Unread(bitBuf', BlockFields(tb, ts), rest)
  {
    BlockFacts(form, tb, ts);
    hide *;
    if isStatic {
      litSizes, distSizes := StaticSizes();
      ok, bitBuf' := true, bitBuf;
      WholeVector(litSizes[..]);
      WholeVector(distSizes[..]);
      assert [] + BlockFields(tb, ts) == BlockFields(tb, ts);
    } else {
      ok, litSizes, distSizes, bitBuf' := ReadHeader(bitBuf, form.hd, tb.lit.sizes, tb.dist.sizes, BlockFields(tb, ts),
                                                     rest);
    }
  }
}
