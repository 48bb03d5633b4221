/** No block ever fills the output buffer. */
module BlockSize {
  import opened Arith
  import opened Bits
  import opened BitStream
  import opened BitOutput
  import opened Tokens
  import opened LzCodes
  import opened BitEmitter
  import opened BlockForm
  import opened Blocks
  import opened FlushBlock
  import opened Huffman
  import NearOptimal

  // ----- the counts of a block as vectors

  ghost function LitCounts(ts: seq<Token>): (r: seq<nat>)
    requires AllRecordable(ts)
    ensures |r| == 288 && forall s :: 0 <= s < 288 ==> r[s] == LitTally(ts, s)
  {
    seq(288, s requires 0 <= s < 288 => LitTally(ts, s))
  }

  ghost function DistCounts(ts: seq<Token>): (r: seq<nat>)
    requires AllRecordable(ts)
    ensures |r| == 32 && forall s :: 0 <= s < 32 ==> r[s] == DistTally(ts, s)
  {
    seq(32, s requires 0 <= s < 32 => DistTally(ts, s))
  }

  lemma CountsAre(lit: seq<nat>, dist: seq<nat>, ts: seq<Token>)
    requires Counted(lit, dist, ts)
    ensures AllRecordable(ts) && lit == LitCounts(ts) && dist == DistCounts(ts)
    ensures Sum(lit) == |ts| && Sum(dist) <= |ts|
  {
    hide LitTally, DistTally;
  }

  /** One more of symbol s costs its length. */
  lemma CostMore(w: seq<nat>, l: seq<nat>, s: nat)
    requires |w| == |l| && s < |w|
    ensures Cost(w[s := w[s] + 1], l) == Cost(w, l) + l[s]
  {
    hide *;
    NearOptimal.CostSymmetric(w, l);
    NearOptimal.CostSymmetric(w[s := w[s] + 1], l);
    CostUpdate(l, w, s, w[s] + 1);
    assert l[s] * (w[s] + 1 - w[s]) == l[s];
  }

  lemma CountsMore(ts: seq<Token>, t: Token)
    requires AllRecordable(ts) && Recordable(t)
    ensures AllRecordable(ts + [t])
    ensures LitCounts(ts + [t]) == LitCounts(ts)[LitSym(t) := LitCounts(ts)[LitSym(t)] + 1]
    ensures t.Literal? ==> DistCounts(ts + [t]) == DistCounts(ts)
    ensures t.Match? ==>
              0 <= t.dist - 1 < LZ_DICT_SIZE
              && DistCounts(ts + [t]) == DistCounts(ts)[DistSym(t.dist - 1) := DistCounts(ts)[DistSym(t.dist - 1)] + 1]
  {
    assert (ts + [t])[..|ts|] == ts;
    hide LitSym, DistSym;
  }

  /** The cost of coding the tokens' symbols with the lengths a and b. */
  ghost function SymbolCost(ts: seq<Token>, a: seq<nat>, b: seq<nat>): int
    requires AllRecordable(ts) && |a| == 288 && |b| == 32
  {
    Cost(LitCounts(ts), a) + Cost(DistCounts(ts), b)
  }

  ghost function TokenCost(t: Token, a: seq<nat>, b: seq<nat>): nat
    requires Recordable(t) && |a| == 288 && |b| == 32
  {
    a[LitSym(t)] + if t.Match? then b[DistSym(t.dist - 1)] else 0
  }

  lemma SymbolCostMore(ts: seq<Token>, t: Token, a: seq<nat>, b: seq<nat>)
    requires AllRecordable(ts) && Recordable(t) && |a| == 288 && |b| == 32
    ensures AllRecordable(ts + [t]) && SymbolCost(ts + [t], a, b) == SymbolCost(ts, a, b) + TokenCost(t, a, b)
  {
    CountsMore(ts, t);
    CostMore(LitCounts(ts), a, LitSym(t));
    if t.Match? { CostMore(DistCounts(ts), b, DistSym(t.dist - 1)); }
    hide Cost, LitCounts, DistCounts, LitSym, DistSym;
  }

  lemma NoSymbols(a: seq<nat>, b: seq<nat>)
    requires |a| == 288 && |b| == 32
    ensures AllRecordable([]) && SymbolCost([], a, b) == 0
  {
    NearOptimal.NothingCosts(LitCounts([]), a);
    NearOptimal.NothingCosts(DistCounts([]), b);
  }

  function Matches(ts: seq<Token>): (n: nat)
    ensures n <= |ts|
  {
    if ts == [] then 0 else Matches(ts[..|ts| - 1]) + if ts[|ts| - 1].Match? then 1 else 0
  }

  /** A block's stream takes the cost of its symbols and at most 18 extra bits for a match. */
  lemma {:induction false} FieldsCost(tb: Tables, ts: seq<Token>)
    requires Writable(tb) && AllRecordable(ts) && |tb.lit.sizes| == 288 && |tb.dist.sizes| == 32
    ensures Len(Fields(tb, ts)) <= SymbolCost(ts, tb.lit.sizes, tb.dist.sizes) + 18 * Matches(ts)
    decreases |ts|
  {
    hide *;
    if ts == [] {
      NoSymbols(tb.lit.sizes, tb.dist.sizes);
      NoFields(tb, ts);
    } else {
      var n: nat := |ts| - 1;
      var us, t := ts[..n], ts[n];
      assert us + [t] == ts && ts[..n + 1] == ts;
      LastToken(ts);
      FieldsCost(tb, us);
      FieldsSnoc(tb, ts, n);
      Append(Fields(tb, us), TokenFields(tb, t));
      OneTokenLen(tb, t);
      SymbolCostMore(us, t, tb.lit.sizes, tb.dist.sizes);
    }
  }

  lemma NoFields(tb: Tables, ts: seq<Token>)
    requires Writable(tb) && ts == []
    ensures AllRecordable(ts) && Fields(tb, ts) == [] && Len([]) == 0 && Matches(ts) == 0
  {
  }

  lemma LastToken(ts: seq<Token>)
    requires AllRecordable(ts) && ts != []
    ensures var n := |ts| - 1;
            && AllRecordable(ts[..n]) && Recordable(ts[n])
            && Matches(ts) == Matches(ts[..n]) + if ts[n].Match? then 1 else 0
  {
    hide Recordable;
  }

  lemma OneTokenLen(tb: Tables, t: Token)
    requires Writable(tb) && Recordable(t) && |tb.lit.sizes| == 288 && |tb.dist.sizes| == 32
    ensures Len(TokenFields(tb, t)) <= TokenCost(t, tb.lit.sizes, tb.dist.sizes) + if t.Match? then 18 else 0
  {
    match t
    case Literal(lit) => Single(CodeField(tb.lit, lit));
    case Match(length, dist) =>
      var n, d := length - 3, dist - 1;
      MatchFieldsAre(tb, n, d);
      var a, b := Field(tb.lit.codes[LenSym(n)], tb.lit.sizes[LenSym(n)]), Field(Low(n, LenExtra(n)), LenExtra(n));
      var c, e := Field(tb.dist.codes[DistSym(d)], tb.dist.sizes[DistSym(d)]),
          Field(Low(d, DistExtra(d)), DistExtra(d));
      FourLen(a, b, c, e);
  }

  // ----- a plain code to compare with: 9 bits for literals, 6 for lengths and the end, 5 for distances

  function Constant(x: nat, n: nat): (r: seq<nat>)
    ensures |r| == n && forall i :: 0 <= i < n ==> r[i] == x
  {
    seq(n, _ => x)
  }

  lemma {:induction false} ConstantKraft(x: nat, n: nat, m: nat)
    requires x <= m
    ensures Bounded(Constant(x, n), m) && Kraft(Constant(x, n), m) == n * Pow2(m - x)
  {
    if n > 0 {
      ConstantKraft(x, n - 1, m);
      assert Constant(x, n)[1..] == Constant(x, n - 1);
      DistributeRight(n - 1, 1, Pow2(m - x));
    }
  }

  function PlainLit(): (r: seq<nat>)
    ensures |r| == 288 && forall s :: 0 <= s < 288 ==> r[s] == if 256 <= s < 286 then 6 else 9
  {
    Constant(9, 256) + (Constant(6, 30) + Constant(9, 2))
  }

  function PlainDist(): (r: seq<nat>)
    ensures |r| == 32 && forall s :: 0 <= s < 32 ==> r[s] == 5
  {
    Constant(5, 32)
  }

  lemma PlainIsDecodable()
    ensures Decodable(PlainLit(), 9) && NearOptimal.AllPositive(PlainLit())
    ensures Decodable(PlainDist(), 5) && NearOptimal.AllPositive(PlainDist())
  {
    PlainParts();
    hide *;
    ConstantKraft(9, 256, 9);
    ConstantKraft(6, 30, 9);
    ConstantKraft(9, 2, 9);
    ConstantKraft(5, 32, 5);
    KraftAppend(Constant(6, 30), Constant(9, 2), 9);
    KraftAppend(Constant(9, 256), Constant(6, 30) + Constant(9, 2), 9);
    SmallPowers();
    IsDecodable(PlainLit(), 9);
    IsDecodable(PlainDist(), 5);
  }

  lemma PlainParts()
    ensures PlainLit() == Constant(9, 256) + (Constant(6, 30) + Constant(9, 2)) && PlainDist() == Constant(5, 32)
    ensures NearOptimal.AllPositive(PlainLit()) && NearOptimal.AllPositive(PlainDist())
  {
  }

  lemma IsDecodable(g: seq<nat>, m: nat)
    requires Bounded(g, m) && Kraft(g, m) <= Pow2(m)
    ensures Decodable(g, m)
  {
  }

  /** With the plain code a literal takes 9 bits and the symbols of a match 11. */
  lemma {:induction false} PlainCost(ts: seq<Token>)
    requires AllRecordable(ts)
    ensures SymbolCost(ts, PlainLit(), PlainDist()) == 9 * |ts| + 2 * Matches(ts)
    decreases |ts|
  {
    hide *;
    PlainSizes();
    if ts == [] {
      NoSymbols(PlainLit(), PlainDist());
      NoMatches(ts);
    } else {
      var n: nat := |ts| - 1;
      assert ts[..n] + [ts[n]] == ts;
      LastToken(ts);
      PlainCost(ts[..n]);
      PlainToken(ts[n]);
      SymbolCostMore(ts[..n], ts[n], PlainLit(), PlainDist());
    }
  }

  lemma PlainSizes()
    ensures |PlainLit()| == 288 && |PlainDist()| == 32 && PlainLit()[256] == 6
  {
  }

  lemma NoMatches(ts: seq<Token>)
    requires ts == []
    ensures Matches(ts) == 0
  {
  }

  lemma PlainToken(t: Token)
    requires Recordable(t)
    ensures |PlainLit()| == 288 && |PlainDist()| == 32
    ensures TokenCost(t, PlainLit(), PlainDist()) == 9 + if t.Match? then 2 else 0
  {
    if t.Match? { assert 257 <= LenSym(t.length - 3) <= 285 && DistSym(t.dist - 1) < 30; }
    hide LenSym, DistSym;
  }

  lemma {:induction false} WeightIs(ts: seq<Token>)
    ensures Weight(ts) == 9 * |ts| + 16 * Matches(ts)
    decreases |ts|
  {
    if ts != [] {
      var n := |ts| - 1;
      assert ts == ts[..n] + [ts[n]];
      WeightSplit(ts[..n], [ts[n]]);
      assert [ts[n]][1..] == [];
      WeightIs(ts[..n]);
    }
  }

  // ----- the size of a block

  lemma NearTables(tb: Tables, ts: seq<Token>) returns (lit: seq<nat>, dist: seq<nat>)
    requires NearFor(tb, ts)
    ensures Counted(lit, dist, ts) && |lit| == 288 && |tb.lit.sizes| == 288 && |tb.dist.sizes| == 32 && |dist| == 32
    ensures NearOptimal.NearBest(lit[256 := 1], tb.lit.sizes) && NearOptimal.NearBest(dist, tb.dist.sizes)
  {
    lit, dist :| NearBoth(lit, dist, tb, ts);
  }

  lemma AgainstPlain(count: seq<nat>, sizes: seq<nat>, plain: seq<nat>, m: nat)
    requires NearOptimal.NearBest(count, sizes) && |plain| == |count| && NearOptimal.AllPositive(plain)
             && Decodable(plain, m)
    ensures |sizes| == |count| && 560 * Cost(count, sizes) <= 560 * Cost(count, plain) + 2 * |count| * Sum(count)
  {
  }

  /** The cost of the symbols of a dynamic block and of its end, against the plain code. */
  lemma DynamicCost(tb: Tables, ts: seq<Token>)
    requires NearFor(tb, ts) && AllRecordable(ts)
    ensures |tb.lit.sizes| == 288 && |tb.dist.sizes| == 32
    ensures 560 * (SymbolCost(ts, tb.lit.sizes, tb.dist.sizes) + tb.lit.sizes[256])
            <= 560 * (9 * |ts| + 2 * Matches(ts) + 6) + 576 * (|ts| + 1) + 64 * |ts|
  {
    hide *;
    var lit, dist := NearTables(tb, ts);
    CountsAre(lit, dist, ts);
    EndIsFree(lit, dist, ts);
    PlainIsDecodable();
    PlainSizes();
    AgainstPlain(lit[256 := 1], tb.lit.sizes, PlainLit(), 9);
    AgainstPlain(dist, tb.dist.sizes, PlainDist(), 5);
    CostMore(lit, tb.lit.sizes, 256);
    CostMore(lit, PlainLit(), 256);
    SumUpdate(lit, 256, 1);
    PlainCost(ts);
    SymbolCostIs(ts, tb.lit.sizes, tb.dist.sizes);
    SymbolCostIs(ts, PlainLit(), PlainDist());
  }

  lemma SymbolCostIs(ts: seq<Token>, a: seq<nat>, b: seq<nat>)
    requires AllRecordable(ts) && |a| == 288 && |b| == 32
    ensures SymbolCost(ts, a, b) == Cost(LitCounts(ts), a) + Cost(DistCounts(ts), b)
  {
  }

  lemma EndIsFree(lit: seq<nat>, dist: seq<nat>, ts: seq<Token>)
    requires Counted(lit, dist, ts) && |lit| == 288
    ensures lit[256] == 0
  {
    NeverCounted(ts, 256);
  }

  /** A dynamic block takes at most 632900 bits behind its header. */
  lemma DynamicLen(tb: Tables, ts: seq<Token>)
    requires NearFor(tb, ts) && Writable(tb) && AllRecordable(ts) && |Encoded(ts)| <= LZ_CODE_BUF_SIZE
    ensures Len(BlockFields(tb, ts)) <= 632900
  {
    hide *;
    DynamicCost(tb, ts);
    FieldsCost(tb, ts);
    WeightIs(ts);
    EncodedWeight(ts);
    LzCodes.Sizes();
    EndLen(tb, ts);
  }

  lemma EndLen(tb: Tables, ts: seq<Token>)
    requires Writable(tb) && AllRecordable(ts) && |tb.lit.sizes| == 288
    ensures Len(BlockFields(tb, ts)) == Len(Fields(tb, ts)) + tb.lit.sizes[256]
  {
    var e := CodeField(tb.lit, END_OF_BLOCK);
    Append(Fields(tb, ts), [e]);
    Single(e);
    hide Fields, Len;
  }

  /** Every compressed block, static or dynamic, takes at most 650130 bits: the output buffer has 681440. */
  lemma BlockLen(form: Form, tb: Tables, ts: seq<Token>)
    requires Block(form, tb, ts) && Compact(form, tb, ts)
    ensures Len(BlockStream(form, tb, ts)) <= 650130
  {
    hide *;
    CompactIs(form, tb, ts);
    BlockIs(form, tb, ts);
    if form.Static? {
      StaticOnly(form);
      StaticFits(tb, ts);
    } else {
      DynamicLen(tb, ts);
      FormLen(form, tb);
      StreamParts(form, tb, ts);
      Append(FormFields(form), BlockFields(tb, ts));
    }
  }

  lemma CompactIs(form: Form, tb: Tables, ts: seq<Token>)
    requires Compact(form, tb, ts)
    ensures AllRecordable(ts) && |Encoded(ts)| <= LZ_CODE_BUF_SIZE
    ensures form.Dynamic? ==> |form.hd.packed| <= 316 && NearFor(tb, ts)
  {
  }

  /** Whatever a flush writes, header, block, marker and trailer, ends more than 3000 bytes before the end of the
      output buffer. */
  lemma FlushLen(h: bool, p: Piece, flush: Flush, trailer: seq<Byte>, bb: nat, n: nat)
    requires Good(p) && SmallPiece(p) && n < 8 && |trailer| <= 4
    ensures var fs := [Field(bb, n)] + (HeadFields(h) + PieceFields(p, n));
            Len(fs + MarkerFields(flush, trailer, Len(fs))) <= 650240
  {
    hide *;
    PieceLen(p, n);
    HeadLen(h);
    Append(HeadFields(h), PieceFields(p, n));
    Append([Field(bb, n)], HeadFields(h) + PieceFields(p, n));
    Single(Field(bb, n));
    var fs := [Field(bb, n)] + (HeadFields(h) + PieceFields(p, n));
    MarkerLen(flush, trailer, Len(fs));
    Append(fs, MarkerFields(flush, trailer, Len(fs)));
  }

  lemma PieceLen(p: Piece, at: nat)
    requires Good(p) && SmallPiece(p)
    ensures Len(PieceFields(p, at)) <= 650131
  {
    PieceFieldsAre(p, at);
    Single(Field(FinalBit(p), 1));
    match p
    case Coded(final, form, tb, ts) =>
      hide *;
      BlockLen(form, tb, ts);
      Append([Field(FinalBit(p), 1)], BlockStream(form, tb, ts));
    case Raw(final, bytes) =>
      Single(Field(0, 2));
      hide *;
      RawLen(bytes, at + 3);
      Append([Field(FinalBit(p), 1)], [Field(0, 2)] + RawFields(bytes, at + 3));
      Append([Field(0, 2)], RawFields(bytes, at + 3));
  }

  lemma PieceFieldsAre(p: Piece, at: nat)
    requires Good(p) && SmallPiece(p)
    ensures p.Coded? ==> Block(p.form, p.tb, p.ts) && Compact(p.form, p.tb, p.ts)
    ensures p.Coded? ==> PieceFields(p, at) == [Field(FinalBit(p), 1)] + BlockStream(p.form, p.tb, p.ts)
    ensures p.Raw? ==> |p.bytes| <= 32768
    ensures p.Raw? ==> PieceFields(p, at) == [Field(FinalBit(p), 1)] + ([Field(0, 2)] + RawFields(p.bytes, at + 3))
  {
    hide Block, Compact, BlockStream, RawFields;
  }

  lemma MarkerLen(flush: Flush, trailer: seq<Byte>, at: nat)
    requires |trailer| <= 4
    ensures Len(MarkerFields(flush, trailer, at)) <= 42
  {
    hide *;
    if flush == NoFlush || flush == Finish {
      EndingOnly(flush, trailer, at);
      PadIs(at);
      ByteFieldsLen(trailer);
      Append(PadFields(at), ByteFields(trailer));
    } else {
      var e := Raw(false, []);
      MarkerOf(flush, trailer, at);
      RawPieceFields(e, at);
      RawLen([], at + 3);
      Append([Field(FinalBit(e), 1)], [Field(0, 2)] + RawFields([], at + 3));
      Append([Field(0, 2)], RawFields([], at + 3));
      Single(Field(0, 2));
      Single(Field(FinalBit(e), 1));
    }
  }

  lemma EndingOnly(flush: Flush, trailer: seq<Byte>, at: nat)
    requires flush == NoFlush || flush == Finish
    ensures Len(MarkerFields(flush, trailer, at)) <= Len(PadFields(at) + ByteFields(trailer))
  {
    assert Len([]) == 0;
  }

  // ----- the size of a block against the data it stands for

  lemma {:induction false} SizeIs(ts: seq<Token>)
    requires AllRecordable(ts)
    ensures TotalSize(ts) >= |ts| + 2 * Matches(ts)
    decreases |ts|
  {
    if ts != [] {
      var n := |ts| - 1;
      LastToken(ts);
      SizeIs(ts[..n]);
      assert ts[n].Match? ==> ts[n].length >= 3;
    }
  }

  /** A coded block takes at most 11 bits for a byte of data, and its header. */
  lemma CodedSize(form: Form, tb: Tables, ts: seq<Token>)
    requires Block(form, tb, ts) && Compact(form, tb, ts)
    ensures Len(BlockStream(form, tb, ts)) <= 11 * TotalSize(ts) + if form.Static? then 9 else 2293
  {
    hide *;
    CompactIs(form, tb, ts);
    BlockIs(form, tb, ts);
    SizeIs(ts);
    WeightIs(ts);
    FormLen(form, tb);
    StreamParts(form, tb, ts);
    Append(FormFields(form), BlockFields(tb, ts));
    if form.Static? {
      StaticOnly(form);
      StaticFormed(tb, ts);
      StaticEnd(tb, ts);
      EndLen(tb, ts);
      StaticTokens(tb, ts);
    } else {
      DynamicCost(tb, ts);
      FieldsCost(tb, ts);
      EndLen(tb, ts);
    }
  }

  lemma StaticEnd(tb: Tables, ts: seq<Token>)
    requires Block(Static, tb, ts)
    ensures |tb.lit.sizes| == 288 && tb.lit.sizes[256] == 7
  {
    StaticFormed(tb, ts);
  }

  lemma {:induction false} StaticTokens(tb: Tables, ts: seq<Token>)
    requires Writable(tb) && tb.lit.sizes == StaticLit() && tb.dist.sizes == StaticDist() && AllRecordable(ts)
    ensures Len(Fields(tb, ts)) <= 9 * |ts| + 22 * Matches(ts)
    decreases |ts|
  {
    hide *;
    if ts == [] {
      NoFields(tb, ts);
    } else {
      var n: nat := |ts| - 1;
      assert ts[..n] + [ts[n]] == ts && ts[..n + 1] == ts;
      LastToken(ts);
      StaticTokens(tb, ts[..n]);
      FieldsSnoc(tb, ts, n);
      Append(Fields(tb, ts[..n]), TokenFields(tb, ts[n]));
      StaticFieldLen(tb, ts[n]);
    }
  }

  /** No block is much longer than its data: not by more than 42 bits if it can be raw, and otherwise at most 11 bits
      for a byte, and a header. */
  lemma ChosenSize(p: Piece, c: Piece, at: nat, total: nat, canBeRaw: bool, rawBlocks: bool, final: bool,
                   staticBlocks: bool, ts: seq<Token>)
    requires Good(p) && SmallPiece(p) && Chosen(p, c, at, total, canBeRaw, rawBlocks)
    requires !(rawBlocks && canBeRaw) ==> Attempt(c, final, ts, staticBlocks || total < 48)
    requires total == TotalSize(ts) && (p.Raw? ==> |p.bytes| == total) && (p.Coded? ==> p.ts == ts)
    ensures canBeRaw ==> Len(PieceFields(p, at)) <= 8 * total + 42
    ensures Len(PieceFields(p, at)) <= 11 * total + 2300
  {
    if p.Raw? {
      RawSize(p, at);
    } else {
      CodedPieceSize(p, at);
      ChosenIs(p, c, at, total, canBeRaw, rawBlocks, final, staticBlocks, ts);
      hide *;
      if canBeRaw && total > 0 { NotExpanded(at, Len(PieceFields(p, at)), total); }
    }
  }

  lemma ChosenIs(p: Piece, c: Piece, at: nat, total: nat, canBeRaw: bool, rawBlocks: bool, final: bool,
                 staticBlocks: bool, ts: seq<Token>)
    requires Good(p) && !p.Raw? && Chosen(p, c, at, total, canBeRaw, rawBlocks)
    requires !(rawBlocks && canBeRaw) ==> Attempt(c, final, ts, staticBlocks || total < 48)
    ensures p == c && p.Coded? && (total < 48 ==> p.form.Static?)
    ensures canBeRaw && total > 0 ==> (at + Len(PieceFields(p, at))) / 8 - (at + 1) / 8 + 1 < total
  {
    hide Good, PieceFields, Len, SmallPiece;
  }

  lemma NotExpanded(at: nat, l: nat, total: nat)
    requires (at + l) / 8 - (at + 1) / 8 + 1 < total
    ensures l <= 8 * total
  {
  }

  lemma RawSize(p: Piece, at: nat)
    requires Good(p) && p.Raw?
    ensures Len(PieceFields(p, at)) <= 8 * |p.bytes| + 42
  {
    RawPieceFields(p, at);
    Single(Field(FinalBit(p), 1));
    Single(Field(0, 2));
    hide *;
    GoodRaw(p);
    RawLen(p.bytes, at + 3);
    Append([Field(FinalBit(p), 1)], [Field(0, 2)] + RawFields(p.bytes, at + 3));
    Append([Field(0, 2)], RawFields(p.bytes, at + 3));
  }

  lemma GoodRaw(p: Piece)
    requires Good(p) && p.Raw?
    ensures |p.bytes| < 0x1_0000
  {
  }

  lemma CodedPieceSize(p: Piece, at: nat)
    requires Good(p) && SmallPiece(p) && p.Coded?
    ensures Len(PieceFields(p, at)) <= 11 * TotalSize(p.ts) + if p.form.Static? then 10 else 2294
  {
    PieceFieldsAre(p, at);
    Single(Field(FinalBit(p), 1));
    hide *;
    CodedSize(p.form, p.tb, p.ts);
    Append([Field(FinalBit(p), 1)], BlockStream(p.form, p.tb, p.ts));
  }

  /** The first attempt always fits. */
  lemma AttemptFits(c: Piece, fs: seq<Field>, final: bool, ts: seq<Token>, isStatic: bool, out: Output)
    requires Attempt(c, final, ts, isStatic) && Len(fs) < 24 && OutBuffer(out)
    ensures Good(c) && Len(fs + PieceFields(c, Len(fs))) / 8 < out.end
  {
    FlushBlock.Sizes(out);
    AttemptIs(c, final, ts, isStatic);
    hide *;
    PieceLen(c, Len(fs));
    Append(fs, PieceFields(c, Len(fs)));
  }

  lemma AttemptIs(c: Piece, final: bool, ts: seq<Token>, isStatic: bool)
    requires Attempt(c, final, ts, isStatic)
    ensures Good(c) && SmallPiece(c) && c.Coded? && c.final == final && c.ts == ts && c.form.Static? == isStatic
  {
  }

  /** What a marker takes at most. */
  function MarkerMost(flush: Flush, trailer: seq<Byte>): nat {
    match flush case NoFlush => 0 case Finish => 7 + 8 * |trailer| case _ => 42
  }

  lemma MarkerSize(flush: Flush, trailer: seq<Byte>, at: nat)
    requires |trailer| <= 4
    ensures Len(MarkerFields(flush, trailer, at)) <= MarkerMost(flush, trailer) <= 42
  {
    MarkerLen(flush, trailer, at);
    assert Len([]) == 0;
    if flush == Finish {
      hide Len, ByteFields;
      PadIs(at);
      ByteFieldsLen(trailer);
      Append(PadFields(at), ByteFields(trailer));
    }
  }
}
