/**
  The two block writers of the compressor: one puts every field through the 32-bit output macro, the
  other gathers up to three literals or one match in a 64-bit word and stores eight bytes at a time.
 */
module BitEmitter {
  import opened Arith
  import opened Bits
  import opened BitStream
  import opened BitOutput
  import opened Tokens
  import opened LzCodes

  datatype HuffCodes = HuffCodes(sizes: seq<nat>, codes: seq<nat>)

  predicate Usable(h: HuffCodes, n: nat) {
    && |h.sizes| == n && |h.codes| == n
    && forall s :: 0 <= s < n ==> h.sizes[s] <= 15 && h.codes[s] < Pow2(h.sizes[s])
  }

  function CodeField(h: HuffCodes, s: nat): Field
    requires s < |h.sizes| && s < |h.codes|
  {
    Field(h.codes[s], h.sizes[s])
  }

  datatype Tables = Tables(lit: HuffCodes, dist: HuffCodes)

  predicate Writable(tb: Tables) {
    Usable(tb.lit, LIT_SYMBOLS) && Usable(tb.dist, DIST_SYMBOLS)
  }

  function LengthFields(tb: Tables, n: nat): seq<Field>
    requires Writable(tb) && n < 256
  {
    [CodeField(tb.lit, LenSym(n)), Field(Low(n, LenExtra(n)), LenExtra(n))]
  }

  function DistFields(tb: Tables, d: nat): seq<Field>
    requires Writable(tb) && d < LZ_DICT_SIZE
  {
    [CodeField(tb.dist, DistSym(d)), Field(Low(d, DistExtra(d)), DistExtra(d))]
  }

  function TokenFields(tb: Tables, t: Token): seq<Field>
    requires Writable(tb) && Recordable(t)
  {
    match t
    case Literal(lit) => [CodeField(tb.lit, lit)]
    case Match(length, dist) => LengthFields(tb, length - 3) + DistFields(tb, dist - 1)
  }

  /** The stream that stands for a token sequence. */
  function Fields(tb: Tables, ts: seq<Token>): seq<Field>
    requires Writable(tb) && AllRecordable(ts)
  {
    if ts == [] then [] else TokenFields(tb, ts[0]) + Fields(tb, ts[1..])
  }

  /** The stream that stands for a block's tokens and its end. */
  function BlockFields(tb: Tables, ts: seq<Token>): seq<Field>
    requires Writable(tb) && AllRecordable(ts)
  {
    Fields(tb, ts) + [CodeField(tb.lit, END_OF_BLOCK)]
  }

  // ----- reading the token buffer

  /** The unread bytes c and the flag word hold the tokens ts; r tokens are left of this flag byte. */
  ghost predicate Reading(c: seq<Byte>, flags: nat, ts: seq<Token>, r: nat) {
    && AllRecordable(ts) && r <= 8
    && var n := Min(r, |ts|);
    && flags == FlagBits(ts[..n]) + Pow2(r)
    && c == Payloads(ts[..n]) + Encoded(ts[n..])
  }

  lemma StartReading(ts: seq<Token>)
    requires AllRecordable(ts)
    ensures Reading(Encoded(ts), 1, ts, 0)
  {
    assert ts[..0] == [] && ts[0..] == ts;
  }

  lemma ReadingEnds(c: seq<Byte>, flags: nat, ts: seq<Token>, r: nat)
    requires Reading(c, flags, ts, r)
    ensures c == [] <==> ts == []
    ensures flags == 1 <==> r == 0
    ensures AllRecordable(ts)
  {
    var n := Min(r, |ts|);
    if r > 0 { assert Pow2(r) >= 2; } else { assert ts[..n] == []; }
    if ts != [] { assert n > 0 || ts[n..] == ts; }
  }

  lemma EncodedFirst(ts: seq<Token>, n: nat)
    requires AllRecordable(ts) && ts != [] && n == Min(8, |ts|)
    ensures AllRecordable(ts[..n]) && AllRecordable(ts[n..])
    ensures FlagBits(ts[..n]) < 256
    ensures Encoded(ts) == [FlagBits(ts[..n])] + (Payloads(ts[..n]) + Encoded(ts[n..]))
  {
    FlagByte(ts[..n]);
    hide Payloads, FlagBits, Recordable;
  }

  lemma NoGroup(c: seq<Byte>, flags: nat, ts: seq<Token>)
    requires Reading(c, flags, ts, 0)
    ensures AllRecordable(ts) && c == Encoded(ts)
  {
    assert ts[..0] == [] && ts[0..] == ts;
  }

  lemma FullFlags(x: Byte)
    ensures Or(x, 256) == x + Pow2(8)
  {
    Pow2Values();
    OrField(x, 1, 8);
  }

  lemma IsReading(c: seq<Byte>, flags: nat, ts: seq<Token>, r: nat, n: nat)
    requires r <= 8 && n == Min(r, |ts|) && AllRecordable(ts) && AllRecordable(ts[..n]) && AllRecordable(ts[n..])
    requires flags == FlagBits(ts[..n]) + Pow2(r)
    requires c == Payloads(ts[..n]) + Encoded(ts[n..])
    ensures Reading(c, flags, ts, r)
  {
  }

  /** The next flag byte. */
  lemma NextGroup(c: seq<Byte>, flags: nat, ts: seq<Token>)
    requires Reading(c, flags, ts, 0) && ts != []
    ensures c != [] && Reading(c[1..], Or(c[0], 256), ts, 8)
  {
    hide *;
    NoGroup(c, flags, ts);
    var n := Min(8, |ts|);
    MinBound(|ts|);
    EncodedFirst(ts, n);
    FullFlags(c[0]);
    assert c[1..] == Payloads(ts[..n]) + Encoded(ts[n..]);
    IsReading(c[1..], Or(c[0], 256), ts, 8, n);
  }

  lemma MinBound(k: nat)
    ensures Min(8, k) <= k
  {
  }

  lemma NextToken(c: seq<Byte>, flags: nat, ts: seq<Token>, r: nat)
    requires Reading(c, flags, ts, r) && r > 0 && ts != []
    ensures Recordable(ts[0]) && flags % 2 == (if ts[0].Match? then 1 else 0)
    ensures |Payload(ts[0])| <= |c| && c[..|Payload(ts[0])|] == Payload(ts[0])
    ensures Reading(c[|Payload(ts[0])|..], flags / 2, ts[1..], r - 1)
  {
    var n := Min(r, |ts|);
    var g, rest, us := ts[..n], ts[n..], ts[1..];
    assert g[0] == ts[0] && g[1..] == us[..n - 1] && rest == us[n - 1..];
    assert Min(r - 1, |us|) == n - 1;
    GroupStep(g);
    Pow2Step(r);
    hide *;
    var p := Payload(ts[0]);
    PrefixOff(c, p, Payloads(g[1..]), Encoded(rest));
    FlagsStep(flags, if ts[0].Match? then 1 else 0, FlagBits(g[1..]), Pow2(r - 1));
    RecordableRest(ts);
    IsReading(c[|p|..], flags / 2, us, r - 1, n - 1);
  }

  lemma RecordableRest(ts: seq<Token>)
    requires AllRecordable(ts) && ts != []
    ensures AllRecordable(ts[1..])
  {
  }

  lemma GroupStep(g: seq<Token>)
    requires g != [] && AllRecordable(g)
    ensures Recordable(g[0]) && AllRecordable(g[1..])
    ensures Payloads(g) == Payload(g[0]) + Payloads(g[1..])
    ensures FlagBits(g) == (if g[0].Match? then 1 else 0) + 2 * FlagBits(g[1..])
  {
  }

  lemma Pow2Step(r: nat)
    requires r > 0
    ensures Pow2(r) == 2 * Pow2(r - 1)
  {
  }

  lemma PrefixOff(c: seq<Byte>, p: seq<Byte>, q: seq<Byte>, e: seq<Byte>)
    requires c == p + q + e
    ensures |p| <= |c| && c[..|p|] == p && c[|p|..] == q + e
  {
  }

  lemma FlagsStep(flags: nat, bit: nat, rest: nat, p: nat)
    requires flags == bit + 2 * rest + 2 * p && bit <= 1
    ensures flags % 2 == bit && flags / 2 == rest + p
  {
  }

  /** The suffix of the token buffer that is still to be read, and what has been written for the rest. */
  ghost predicate Midway(tb: Tables, codes: seq<Byte>, p: nat, flags: nat, ts: seq<Token>, i: nat, r: nat) {
    && Writable(tb) && AllRecordable(ts) && i <= |ts| && p <= |codes|
    && Reading(codes[p..], flags, ts[i..], r)
  }

  lemma AtStart(tb: Tables, ts: seq<Token>)
    requires Writable(tb) && AllRecordable(ts)
    ensures Midway(tb, Encoded(ts), 0, 1, ts, 0, 0) && AllRecordable(ts[..0]) && Fields(tb, ts[..0]) == []
  {
    StartReading(ts);
    assert Encoded(ts)[0..] == Encoded(ts) && ts[0..] == ts && ts[..0] == [];
  }

  lemma AtGroup(tb: Tables, codes: seq<Byte>, p: nat, flags: nat, ts: seq<Token>, i: nat, r: nat)
    requires Midway(tb, codes, p, flags, ts, i, r)
    ensures p == |codes| <==> i == |ts|
    ensures i <= |ts| && p <= |codes| && Writable(tb) && AllRecordable(ts)
    ensures flags != 1 ==> r > 0
    ensures flags == 1 && p < |codes| ==> Midway(tb, codes, p + 1, Or(codes[p], 256), ts, i, 8)
  {
    var c, us := codes[p..], ts[i..];
    ReadingEnds(c, flags, us, r);
    if flags == 1 && p < |codes| {
      NextGroup(c, flags, us);
      assert c[1..] == codes[p + 1..] && c[0] == codes[p];
    }
  }

  lemma AtToken(tb: Tables, codes: seq<Byte>, p: nat, flags: nat, ts: seq<Token>, i: nat, r: nat)
    requires Midway(tb, codes, p, flags, ts, i, r) && r > 0 && i < |ts|
    ensures Recordable(ts[i]) && p + |Payload(ts[i])| <= |codes|
    ensures codes[p..p + |Payload(ts[i])|] == Payload(ts[i])
    ensures flags % 2 == if ts[i].Match? then 1 else 0
    ensures Midway(tb, codes, p + |Payload(ts[i])|, flags / 2, ts, i + 1, r - 1)
    ensures AllRecordable(ts[..i]) && AllRecordable(ts[..i + 1])
    ensures Fields(tb, ts[..i + 1]) == Fields(tb, ts[..i]) + TokenFields(tb, ts[i])
  {
    hide Fields, TokenFields, Payload, Reading, Recordable, AllRecordable, Writable;
    PartsRecordable(ts, i);
    var c, us, q := codes[p..], ts[i..], |Payload(ts[i])|;
    FieldsSnoc(tb, ts, i);
    assert us[1..] == ts[i + 1..] && us[0] == ts[i];
    NextToken(c, flags, us, r);
    assert c[q..] == codes[p + q..] && c[..q] == codes[p..p + q];
  }

  lemma PartsRecordable(ts: seq<Token>, i: nat)
    requires AllRecordable(ts) && i < |ts|
    ensures Recordable(ts[i]) && AllRecordable(ts[..i]) && AllRecordable(ts[..i + 1])
  {
    hide Recordable;
  }

  lemma {:induction false} FieldsSnoc(tb: Tables, ts: seq<Token>, i: nat)
    requires Writable(tb) && AllRecordable(ts) && i < |ts|
    ensures Fields(tb, ts[..i + 1]) == Fields(tb, ts[..i]) + TokenFields(tb, ts[i])
  {
    hide TokenFields, Writable;
    if i == 0 {
      assert ts[..1][1..] == [] && ts[..0] == [] && ts[..1][0] == ts[0];
      assert Fields(tb, ts[..1]) == TokenFields(tb, ts[0]) + Fields(tb, ts[..1][1..]);
    } else {
      FieldsSnoc(tb, ts[1..], i - 1);
      assert ts[..i + 1][1..] == ts[1..][..i] && ts[..i][1..] == ts[1..][..i - 1];
      assert ts[..i + 1][0] == ts[0] == ts[..i][0];
    }
  }

  lemma TokenBytes(t: Token)
    requires Recordable(t)
    ensures t.Literal? ==> Payload(t) == [t.lit]
    ensures t.Match? ==> Payload(t) == [t.length - 3, (t.dist - 1) % 256, (t.dist - 1) / 256]
    ensures t.Match? ==> 0 <= t.length - 3 < 256 && 0 <= t.dist - 1 < 32768
    ensures t.Match? ==> Or((t.dist - 1) % 256, (t.dist - 1) / 256 * 256) == t.dist - 1
  {
    if t.Match? {
      Pow2Values();
      OrField((t.dist - 1) % 256, (t.dist - 1) / 256, 8);
    }
  }

  lemma CodeFacts(tb: Tables)
    requires Writable(tb)
    ensures |tb.lit.sizes| == |tb.lit.codes| == 288 && |tb.dist.sizes| == |tb.dist.codes| == 32
    ensures forall s :: 0 <= s < 288 ==> tb.lit.sizes[s] <= 15 && tb.lit.codes[s] < Pow2(tb.lit.sizes[s])
    ensures forall s :: 0 <= s < 32 ==> tb.dist.sizes[s] <= 15 && tb.dist.codes[s] < Pow2(tb.dist.sizes[s])
  {
  }

  lemma MatchFieldsAre(tb: Tables, n: nat, d: nat)
    requires Writable(tb) && n < 256 && d < 32768
    requires |tb.lit.sizes| == |tb.lit.codes| == 288 && |tb.dist.sizes| == |tb.dist.codes| == 32
    ensures Recordable(Match(n + 3, d + 1))
    ensures TokenFields(tb, Match(n + 3, d + 1)) ==
            [Field(tb.lit.codes[LenSym(n)], tb.lit.sizes[LenSym(n)]), Field(Low(n, LenExtra(n)), LenExtra(n)),
             Field(tb.dist.codes[DistSym(d)], tb.dist.sizes[DistSym(d)]), Field(Low(d, DistExtra(d)), DistExtra(d))]
    ensures DistExtra(d) == if d < 512 then SmallDistExtra(d) else LargeDistExtra(d / 256)
  {
  }

  lemma LiteralFieldsAre(tb: Tables, b: Byte)
    requires Writable(tb) && |tb.lit.sizes| == |tb.lit.codes| == 288
    ensures Recordable(Literal(b)) && TokenFields(tb, Literal(b)) == [Field(tb.lit.codes[b], tb.lit.sizes[b])]
  {
  }

  lemma EndFieldIs(tb: Tables)
    requires Writable(tb) && |tb.lit.sizes| == |tb.lit.codes| == 288
    ensures CodeField(tb.lit, END_OF_BLOCK) == Field(tb.lit.codes[256], tb.lit.sizes[256])
  {
  }

  // ----- the simple writer

  method PutMatch(out: Output, tb: Tables, matchLen: Byte, matchDist: nat, ghost fs: seq<Field>)
    requires out.Valid(fs) && Writable(tb) && matchDist < 32768
    modifies out`pos, out`bitBuffer, out`bitsIn, out.buf
    ensures Recordable(Match(matchLen + 3, matchDist + 1))
    ensures out.Valid(fs + TokenFields(tb, Match(matchLen + 3, matchDist + 1)))
  {
    hide *;
    CodeFacts(tb);
    MatchFieldsAre(tb, matchLen, matchDist);
    var lenSym := LenSym(matchLen);
    out.PutBits(tb.lit.codes[lenSym], tb.lit.sizes[lenSym], fs);
    ghost var gs := fs + [Field(tb.lit.codes[lenSym], tb.lit.sizes[lenSym])];
    out.PutBits(Low(matchLen, LenExtra(matchLen)), LenExtra(matchLen), gs);
    gs := gs + [Field(Low(matchLen, LenExtra(matchLen)), LenExtra(matchLen))];
    var sym, numExtraBits;
    if matchDist < 512 {
      sym, numExtraBits := SmallDistSym(matchDist), SmallDistExtra(matchDist);
    } else {
      sym, numExtraBits := LargeDistSym(matchDist / 256), LargeDistExtra(matchDist / 256);
    }
    DistSymIs(matchDist);
    out.PutBits(tb.dist.codes[sym], tb.dist.sizes[sym], gs);
    gs := gs + [Field(tb.dist.codes[sym], tb.dist.sizes[sym])];
    out.PutBits(Low(matchDist, numExtraBits), numExtraBits, gs);
    gs := gs + [Field(Low(matchDist, numExtraBits), numExtraBits)];
    assert gs == fs + TokenFields(tb, Match(matchLen + 3, matchDist + 1));
  }

  /** One token: its payload is read from the token buffer and its fields are put out. */
  method PutToken(out: Output, tb: Tables, codes: seq<Byte>, p: nat, flags: nat, ghost fs: seq<Field>, ghost t: Token)
    returns (p': nat)
    requires out.Valid(fs) && Writable(tb) && Recordable(t) && p + |Payload(t)| <= |codes|
    requires codes[p..p + |Payload(t)|] == Payload(t) && flags % 2 == if t.Match? then 1 else 0
    modifies out`pos, out`bitBuffer, out`bitsIn, out.buf
    ensures out.Valid(fs + TokenFields(tb, t)) && p' == p + |Payload(t)|
  {
    hide *;
    TokenBytes(t);
    CodeFacts(tb);
    if flags % 2 == 1 {
      assert codes[p] == codes[p..p + 3][0] && codes[p + 1] == codes[p..p + 3][1] && codes[p + 2] == codes[p..p + 3][2];
      var lo: nat, hi: nat := codes[p + 1], codes[p + 2];
      var matchLen, matchDist := codes[p], Or(lo, hi * 256);
      p' := p + 3;
      PutMatch(out, tb, matchLen, matchDist, fs);
    } else {
      assert codes[p] == codes[p..p + 1][0];
      var lit := codes[p];
      p' := p + 1;
      LiteralFieldsAre(tb, lit);
      out.PutBits(tb.lit.codes[lit], tb.lit.sizes[lit], fs);
    }
  }

  lemma RoomIfFits(out: Output, fs: seq<Field>)
    requires out.Valid(fs)
    ensures out.pos < out.end <==> Len(fs) / 8 < out.end
  {
    if Settled(out.buf[..][..out.pos], out.bitBuffer, out.bitsIn, fs) {
      SettledLen(out.buf[..][..out.pos], out.bitBuffer, out.bitsIn, fs);
    }
  }

  /** The simple tdefl_compress_lz_codes. */
  method CompressSimple(out: Output, tb: Tables, codes: seq<Byte>, ghost fs: seq<Field>, ghost ts: seq<Token>)
    returns (ok: bool)
    requires out.Valid(fs) && Writable(tb) && AllRecordable(ts) && codes == Encoded(ts)
    modifies out`pos, out`bitBuffer, out`bitsIn, out.buf
    ensures out.Valid(fs + BlockFields(tb, ts))
    ensures ok <==> Len(fs + BlockFields(tb, ts)) / 8 < out.end
  {
    hide *;
    var p: nat, flags: nat := 0, 1;
    ghost var i: nat, r: nat := 0, 0;
    AtStart(tb, ts);
    assert fs + [] == fs;
    while p < |codes|
      invariant Midway(tb, codes, p, flags, ts, i, r) && i <= |ts| && AllRecordable(ts[..i])
      invariant out.Valid(fs + Fields(tb, ts[..i]))
      decreases |ts| - i
    {
      AtGroup(tb, codes, p, flags, ts, i, r);
      if flags == 1 {
        flags := Or(codes[p], 256);
        p := p + 1;
        r := 8;
      }
      AtToken(tb, codes, p, flags, ts, i, r);
      ghost var gs := fs + Fields(tb, ts[..i]);
      p := PutToken(out, tb, codes, p, flags, gs, ts[i]);
      assert gs + TokenFields(tb, ts[i]) == fs + Fields(tb, ts[..i + 1]);
      i := i + 1;
      r := r - 1;
      flags := flags / 2;
    }
    AtGroup(tb, codes, p, flags, ts, i, r);
    assert ts[..i] == ts;
    CodeFacts(tb);
    EndFieldIs(tb);
    out.PutBits(tb.lit.codes[256], tb.lit.sizes[256], fs + Fields(tb, ts));
    BlockFieldsAre(fs, tb, ts);
    RoomIfFits(out, fs + BlockFields(tb, ts));
    ok := out.pos < out.end;
  }

  lemma BlockFieldsAre(fs: seq<Field>, tb: Tables, ts: seq<Token>)
    requires Writable(tb) && AllRecordable(ts)
    ensures fs + Fields(tb, ts) + [CodeField(tb.lit, END_OF_BLOCK)] == fs + BlockFields(tb, ts)
  {
  }

  // ----- the fast writer

  /** TDEFL_PUT_BITS_FAST: no bit of the 64-bit word is lost. */
  method FastPut(bitBuffer: nat, bitsIn: nat, b: nat, l: nat, ghost bytes: seq<Byte>, ghost fs: seq<Field>)
    returns (bitBuffer': nat, bitsIn': nat)
    requires Settled(bytes, bitBuffer, bitsIn, fs) && b < Pow2(l) && bitsIn + l <= 64
    ensures bitsIn' == bitsIn + l && Settled(bytes, bitBuffer', bitsIn', fs + [Field(b, l)])
  {
    hide *;
    SettledIs(bytes, bitBuffer, bitsIn, fs);
    ShiftedBelow(b, l, bitsIn, 64);
    Small(b * Pow2(bitsIn), 64);
    OrField(bitBuffer, b, bitsIn);
    Put(bytes, bitBuffer, bitsIn, fs, b, l);
    bitBuffer' := Or(bitBuffer, Low(b * Pow2(bitsIn), 64));
    bitsIn' := bitsIn + l;
  }

  method FastMatch(tb: Tables, bitBuffer: nat, bitsIn: nat, matchLen: Byte, matchDist: nat, ghost bytes: seq<Byte>,
                   ghost fs: seq<Field>)
    returns (bitBuffer': nat, bitsIn': nat)
    requires Settled(bytes, bitBuffer, bitsIn, fs) && bitsIn <= 7 && Writable(tb) && matchDist < 32768
    ensures Recordable(Match(matchLen + 3, matchDist + 1)) && bitsIn' <= 55
    ensures Settled(bytes, bitBuffer', bitsIn', fs + TokenFields(tb, Match(matchLen + 3, matchDist + 1)))
  {
    hide *;
    CodeFacts(tb);
    MatchFieldsAre(tb, matchLen, matchDist);
    var lenSym := LenSym(matchLen);
    bitBuffer', bitsIn' := FastPut(bitBuffer, bitsIn, tb.lit.codes[lenSym], tb.lit.sizes[lenSym], bytes, fs);
    ghost var gs := fs + [Field(tb.lit.codes[lenSym], tb.lit.sizes[lenSym])];
    bitBuffer', bitsIn' := FastPut(bitBuffer', bitsIn', Low(matchLen, LenExtra(matchLen)), LenExtra(matchLen), bytes,
                                   gs);
    gs := gs + [Field(Low(matchLen, LenExtra(matchLen)), LenExtra(matchLen))];
    var s0, n0 := SmallDistSym(matchDist % 512), SmallDistExtra(matchDist % 512);
    var s1, n1 := LargeDistSym(matchDist / 256), LargeDistExtra(matchDist / 256);
    var sym, numExtraBits := if matchDist < 512 then s0 else s1, if matchDist < 512 then n0 else n1;
    DistSymIs(matchDist);
    bitBuffer', bitsIn' := FastPut(bitBuffer', bitsIn', tb.dist.codes[sym], tb.dist.sizes[sym], bytes, gs);
    gs := gs + [Field(tb.dist.codes[sym], tb.dist.sizes[sym])];
    bitBuffer', bitsIn' := FastPut(bitBuffer', bitsIn', Low(matchDist, numExtraBits), numExtraBits, bytes, gs);
    gs := gs + [Field(Low(matchDist, numExtraBits), numExtraBits)];
    assert gs == fs + TokenFields(tb, Match(matchLen + 3, matchDist + 1));
  }

  method FastLiteral(tb: Tables, codes: seq<Byte>, p: nat, bitBuffer: nat, bitsIn: nat, ghost bytes: seq<Byte>,
                     ghost fs: seq<Field>, ghost t: Token)
    returns (p': nat, bitBuffer': nat, bitsIn': nat)
    requires Settled(bytes, bitBuffer, bitsIn, fs) && bitsIn <= 7 + 30 && Writable(tb) && t.Literal? && Recordable(t)
    requires p + |Payload(t)| <= |codes| && codes[p..p + |Payload(t)|] == Payload(t)
    ensures bitsIn' <= bitsIn + 15 && p' == p + |Payload(t)|
            && Settled(bytes, bitBuffer', bitsIn', fs + TokenFields(tb, t))
  {
    hide *;
    TokenBytes(t);
    CodeFacts(tb);
    assert codes[p] == codes[p..p + 1][0];
    var lit := codes[p];
    p' := p + 1;
    LiteralFieldsAre(tb, lit);
    bitBuffer', bitsIn' := FastPut(bitBuffer, bitsIn, tb.lit.codes[lit], tb.lit.sizes[lit], bytes, fs);
  }

  /** The state of the fast writer between two tokens: the token buffer is read up to token i, and so much is
      written. */
  ghost predicate Written(tb: Tables, codes: seq<Byte>, p: nat, flags: nat, ts: seq<Token>, i: nat, r: nat,
                          bytes: seq<Byte>, bb: nat, n: nat, fs: seq<Field>)
  {
    && Midway(tb, codes, p, flags, ts, i, r) && AllRecordable(ts[..i])
    && Settled(bytes, bb, n, fs + Fields(tb, ts[..i]))
  }

  lemma WrittenIs(tb: Tables, codes: seq<Byte>, p: nat, flags: nat, ts: seq<Token>, i: nat, r: nat,
                  bytes: seq<Byte>, bb: nat, n: nat, fs: seq<Field>)
    requires Written(tb, codes, p, flags, ts, i, r, bytes, bb, n, fs)
    ensures Midway(tb, codes, p, flags, ts, i, r) && Writable(tb) && AllRecordable(ts) && i <= |ts|
            && AllRecordable(ts[..i])
    ensures Settled(bytes, bb, n, fs + Fields(tb, ts[..i]))
    ensures p == |codes| <==> i == |ts|
    ensures flags % 2 == 0 ==> r > 0
    ensures i < |ts| && r > 0 ==> flags % 2 == if ts[i].Match? then 1 else 0
  {
    AtGroup(tb, codes, p, flags, ts, i, r);
    if i < |ts| && r > 0 { AtToken(tb, codes, p, flags, ts, i, r); }
  }

  lemma NowWritten(tb: Tables, codes: seq<Byte>, p: nat, flags: nat, ts: seq<Token>, i: nat, r: nat,
                   bytes: seq<Byte>, bb: nat, n: nat, fs: seq<Field>)
    requires i < |ts| && AllRecordable(ts) && Writable(tb) && AllRecordable(ts[..i])
    requires Midway(tb, codes, p, flags, ts, i + 1, r) && AllRecordable(ts[..i + 1]) && Recordable(ts[i])
    requires Settled(bytes, bb, n, fs + Fields(tb, ts[..i]) + TokenFields(tb, ts[i]))
    requires Fields(tb, ts[..i + 1]) == Fields(tb, ts[..i]) + TokenFields(tb, ts[i])
    ensures Written(tb, codes, p, flags, ts, i + 1, r, bytes, bb, n, fs)
  {
    assert fs + Fields(tb, ts[..i]) + TokenFields(tb, ts[i]) == fs + Fields(tb, ts[..i + 1]);
    hide Fields, TokenFields, Settled, Midway, Writable;
  }

  /** A literal that is the next token of the group. */
  method NextLiteral(tb: Tables, codes: seq<Byte>, p: nat, flags: nat, bitBuffer: nat, bitsIn: nat,
                     ghost ts: seq<Token>, ghost i: nat, ghost r: nat, ghost bytes: seq<Byte>, ghost fs: seq<Field>)
    returns (p': nat, bitBuffer': nat, bitsIn': nat)
    requires Written(tb, codes, p, flags, ts, i, r, bytes, bitBuffer, bitsIn, fs) && flags % 2 == 0 && p < |codes|
             && bitsIn <= 37
    ensures i < |ts| && r > 0 && bitsIn' <= bitsIn + 15
    ensures Written(tb, codes, p', flags / 2, ts, i + 1, r - 1, bytes, bitBuffer', bitsIn', fs)
  {
    hide *;
    WrittenIs(tb, codes, p, flags, ts, i, r, bytes, bitBuffer, bitsIn, fs);
    AtToken(tb, codes, p, flags, ts, i, r);
    p', bitBuffer', bitsIn' := FastLiteral(tb, codes, p, bitBuffer, bitsIn, bytes, fs + Fields(tb, ts[..i]), ts[i]);
    NowWritten(tb, codes, p', flags / 2, ts, i, r - 1, bytes, bitBuffer', bitsIn', fs);
  }

  method NextMatch(tb: Tables, codes: seq<Byte>, p: nat, flags: nat, bitBuffer: nat, bitsIn: nat,
                   ghost ts: seq<Token>, ghost i: nat, ghost r: nat, ghost bytes: seq<Byte>, ghost fs: seq<Field>)
    returns (p': nat, bitBuffer': nat, bitsIn': nat)
    requires Written(tb, codes, p, flags, ts, i, r, bytes, bitBuffer, bitsIn, fs) && flags % 2 == 1 && p < |codes|
             && bitsIn <= 7 && r > 0
    ensures i < |ts| && bitsIn' <= 55
    ensures Written(tb, codes, p', flags / 2, ts, i + 1, r - 1, bytes, bitBuffer', bitsIn', fs)
  {
    hide *;
    WrittenIs(tb, codes, p, flags, ts, i, r, bytes, bitBuffer, bitsIn, fs);
    AtToken(tb, codes, p, flags, ts, i, r);
    ghost var t := ts[i];
    TokenBytes(t);
    assert codes[p] == codes[p..p + 3][0] && codes[p + 1] == codes[p..p + 3][1] && codes[p + 2] == codes[p..p + 3][2];
    var lo: nat, hi: nat := codes[p + 1], codes[p + 2];
    var matchLen, matchDist := codes[p], Or(lo, hi * 256);
    p' := p + 3;
    bitBuffer', bitsIn' := FastMatch(tb, bitBuffer, bitsIn, matchLen, matchDist, bytes, fs + Fields(tb, ts[..i]));
    NowWritten(tb, codes, p', flags / 2, ts, i, r - 1, bytes, bitBuffer', bitsIn', fs);
  }

  /** One turn of the fast loop before the store: a match, or one to three literals. At most 55 bits are pending. */
  method FastStep(tb: Tables, codes: seq<Byte>, p: nat, flags: nat, bitBuffer: nat, bitsIn: nat,
                  ghost ts: seq<Token>, ghost i: nat, ghost r: nat, ghost bytes: seq<Byte>, ghost fs: seq<Field>)
    returns (p': nat, flags': nat, bitBuffer': nat, bitsIn': nat, ghost i': nat, ghost r': nat)
    requires Written(tb, codes, p, flags, ts, i, r, bytes, bitBuffer, bitsIn, fs) && p < |codes| && bitsIn <= 7 && r > 0
    ensures i < i' <= |ts| && bitsIn' <= 55
    ensures Written(tb, codes, p', flags', ts, i', r', bytes, bitBuffer', bitsIn', fs)
  {
    hide *;
    flags' := flags;
    if flags' % 2 == 1 {
      p', bitBuffer', bitsIn' := NextMatch(tb, codes, p, flags', bitBuffer, bitsIn, ts, i, r, bytes, fs);
      i', r' := i + 1, r - 1;
    } else {
      p', bitBuffer', bitsIn' := NextLiteral(tb, codes, p, flags', bitBuffer, bitsIn, ts, i, r, bytes, fs);
      i', r' := i + 1, r - 1;
      if (flags' / 2) % 2 == 0 && p' < |codes| {
        flags' := flags' / 2;
        p', bitBuffer', bitsIn' := NextLiteral(tb, codes, p', flags', bitBuffer', bitsIn', ts, i', r', bytes, fs);
        i', r' := i' + 1, r' - 1;
        if (flags' / 2) % 2 == 0 && p' < |codes| {
          flags' := flags' / 2;
          p', bitBuffer', bitsIn' := NextLiteral(tb, codes, p', flags', bitBuffer', bitsIn', ts, i', r', bytes, fs);
          i', r' := i' + 1, r' - 1;
        }
      }
    }
    flags' := flags' / 2;
    WrittenIs(tb, codes, p', flags', ts, i', r', bytes, bitBuffer', bitsIn', fs);
  }

  /** The bytes of a stored word. */
  ghost predicate WordAt(s: seq<Byte>, pos: nat, bb: nat) {
    pos + 8 <= |s| && forall k :: 0 <= k < 8 ==> s[pos + k] == Low(Shr(bb, 8 * k), 8)
  }

  /** The lowest k bytes of the pending word are settled. */
  lemma {:induction false} StoredBytes(s: seq<Byte>, pos: nat, bb: nat, n: nat, fs: seq<Field>, k: nat)
    requires WordAt(s, pos, bb) && Settled(s[..pos], bb, n, fs) && 8 * k <= n && k < 8
    ensures Settled(s[..pos + k], Shr(bb, 8 * k), n - 8 * k, fs)
  {
    hide Settled, Shr, Low;
    if k == 0 {
      ShrNone(bb);
    } else {
      StoredBytes(s, pos, bb, n, fs, k - 1);
      var x := Shr(bb, 8 * (k - 1));
      OutByte(s[..pos + (k - 1)], x, n - 8 * (k - 1), fs);
      ShrShr(bb, 8 * (k - 1), 8);
      assert s[..pos + k] == s[..pos + (k - 1)] + [Low(x, 8)];
    }
  }

  lemma WholeBytes(n: nat)
    requires n <= 55
    ensures n - n % 8 == 8 * (n / 8) && n / 8 <= 6 && n % 8 <= 7
  {
  }

  /** The eight-byte store and the step over the whole bytes among the pending bits. */
  method Store(out: Output, pos: nat, bitBuffer: nat, bitsIn: nat, ghost fs: seq<Field>)
    returns (pos': nat, bitBuffer': nat, bitsIn': nat)
    requires pos < out.end && out.end + 16 <= out.buf.Length && bitsIn <= 55 && out.Kept() && out.pos <= pos
    requires Settled(out.buf[..pos], bitBuffer, bitsIn, fs)
    modifies out.buf
    ensures pos <= pos' <= out.buf.Length && out.Kept() && bitsIn' <= 7
            && Settled(out.buf[..pos'], bitBuffer', bitsIn', fs)
    ensures forall k :: pos + 8 <= k < out.buf.Length ==> out.buf[k] == old(out.buf[k])
  {
    hide *;
    ghost var before, start := out.buf[..pos], out.buf[..];
    KeptIs(out);
    for k := 0 to 8
      invariant out.buf[..pos] == before && forall m :: pos + 8 <= m < out.buf.Length ==> out.buf[m] == start[m]
      invariant forall m :: 0 <= m < k ==> out.buf[pos + m] == Low(Shr(bitBuffer, 8 * m), 8)
    {
      LowByte(Shr(bitBuffer, 8 * k));
      out.buf[pos + k] := Low(Shr(bitBuffer, 8 * k), 8);
    }
    ghost var s := out.buf[..];
    IsWord(s, pos, bitBuffer);
    assert s[..pos] == before;
    PrefixKept(out, s, start, pos);
    WholeBytes(bitsIn);
    StoredBytes(s, pos, bitBuffer, bitsIn, fs, bitsIn / 8);
    pos' := pos + bitsIn / 8;
    bitBuffer' := Shr(bitBuffer, bitsIn - bitsIn % 8);
    bitsIn' := bitsIn % 8;
    assert out.buf[..pos'] == s[..pos'];
  }

  lemma KeptIs(out: Output)
    ensures out.Kept() <==> |out.kept| <= out.pos && |out.kept| <= out.buf.Length && out.buf[..|out.kept|] == out.kept
  {
  }

  lemma PrefixKept(out: Output, s: seq<Byte>, before: seq<Byte>, pos: nat)
    requires s == out.buf[..] && |before| == |s| && |out.kept| <= out.pos <= pos <= |s|
    requires s[..pos] == before[..pos] && before[..|out.kept|] == out.kept
    ensures out.Kept()
  {
    assert out.buf[..|out.kept|] == s[..pos][..|out.kept|];
  }

  lemma IsWord(s: seq<Byte>, pos: nat, bb: nat)
    requires pos + 8 <= |s| && forall k :: 0 <= k < 8 ==> s[pos + k] == Low(Shr(bb, 8 * k), 8)
    ensures WordAt(s, pos, bb)
  {
  }

  lemma EmptyField(fs: seq<Field>)
    ensures Same(fs + [Field(0, 0)], fs)
  {
    Append(fs, [Field(0, 0)]);
    Single(Field(0, 0));
  }

  lemma ValidSame(out: Output, gs: seq<Field>, fs: seq<Field>)
    requires out.Valid(gs) && Same(gs, fs)
    ensures out.Valid(fs)
  {
  }

  /** The bytes before pos are the whole output, and no bits are pending. */
  lemma OnlyBytes(out: Output)
    requires out.Kept() && out.end <= out.buf.Length && out.pos <= out.buf.Length && out.bitsIn == 0
             && out.bitBuffer == 0
    ensures out.Valid(ByteFields(out.buf[..out.pos]))
  {
    EmptyField(ByteFields(out.buf[..out.pos]));
    assert out.buf[..][..out.pos] == out.buf[..out.pos];
  }

  /** The pending bits of the fast writer go back to the output, at most 16 at a time. */
  method Drain(out: Output, bitBuffer: nat, bitsIn: nat, ghost hs: seq<Field>, ghost fs: seq<Field>)
    requires out.Valid(hs) && bitBuffer < Pow2(bitsIn) && Same(hs + [Field(bitBuffer, bitsIn)], fs)
    modifies out`pos, out`bitBuffer, out`bitsIn, out.buf
    ensures out.Valid(fs)
  {
    hide *;
    var bb: nat, left: nat := bitBuffer, bitsIn;
    ghost var gs := hs;
    while left > 0
      invariant out.Valid(gs) && bb < Pow2(left) && Same(gs + [Field(bb, left)], fs)
      decreases left
    {
      var n := if left < 16 then left else 16;
      LowBound(bb, n);
      ShrBound(bb, n, left);
      CutAfter(gs, bb, left, n, fs);
      out.PutBits(Low(bb, n), n, gs);
      gs := gs + [Field(Low(bb, n), n)];
      bb := Shr(bb, n);
      left := left - n;
    }
    NothingLeft(gs, bb, fs);
    ValidSame(out, gs, fs);
  }

  lemma NothingLeft(gs: seq<Field>, bb: nat, fs: seq<Field>)
    requires bb < Pow2(0) && Same(gs + [Field(bb, 0)], fs)
    ensures Same(gs, fs)
  {
    EmptyField(gs);
  }

  lemma CutAfter(gs: seq<Field>, bb: nat, left: nat, n: nat, fs: seq<Field>)
    requires n <= left && Same(gs + [Field(bb, left)], fs)
    ensures Same(gs + [Field(Low(bb, n), n)] + [Field(Shr(bb, n), left - n)], fs)
  {
    hide *;
    var a, b := Field(Low(bb, n), n), Field(Shr(bb, n), left - n);
    Cut(bb, left, n);
    SamePrepend(gs, [Field(bb, left)], [a, b]);
    assert gs + [a, b] == gs + [a] + [b];
    SameTransitive(gs + [a, b], gs + [Field(bb, left)], fs);
  }

  lemma BlockIsLonger(bytes: seq<Byte>, bb: nat, n: nat, fs: seq<Field>, tb: Tables, ts: seq<Token>, i: nat)
    requires Writable(tb) && AllRecordable(ts) && i <= |ts| && AllRecordable(ts[..i])
    requires Settled(bytes, bb, n, fs + Fields(tb, ts[..i]))
    ensures |bytes| <= Len(fs + BlockFields(tb, ts)) / 8
  {
    SettledLen(bytes, bb, n, fs + Fields(tb, ts[..i]));
    FieldsPrefix(tb, ts, i);
    Append(fs, Fields(tb, ts[..i]));
    Append(fs, BlockFields(tb, ts));
  }

  lemma {:induction false} FieldsPrefix(tb: Tables, ts: seq<Token>, i: nat)
    requires Writable(tb) && AllRecordable(ts) && i <= |ts| && AllRecordable(ts[..i])
    ensures Len(Fields(tb, ts[..i])) <= Len(BlockFields(tb, ts))
    decreases |ts| - i
  {
    if i == |ts| {
      assert ts[..i] == ts;
      Append(Fields(tb, ts), [CodeField(tb.lit, END_OF_BLOCK)]);
    } else {
      FieldsSnoc(tb, ts, i);
      Append(Fields(tb, ts[..i]), TokenFields(tb, ts[i]));
      FieldsPrefix(tb, ts, i + 1);
    }
  }

  lemma WrittenAtStart(tb: Tables, ts: seq<Token>, bytes: seq<Byte>, bb: nat, n: nat, fs: seq<Field>)
    requires Writable(tb) && AllRecordable(ts) && Settled(bytes, bb, n, fs)
    ensures Written(tb, Encoded(ts), 0, 1, ts, 0, 0, bytes, bb, n, fs)
  {
    AtStart(tb, ts);
    assert fs + [] == fs;
    hide Settled, Fields, Midway, Encoded, Writable;
  }

  lemma WrittenAtGroup(tb: Tables, codes: seq<Byte>, p: nat, flags: nat, ts: seq<Token>, i: nat, r: nat,
                       bytes: seq<Byte>, bb: nat, n: nat, fs: seq<Field>)
    requires Written(tb, codes, p, flags, ts, i, r, bytes, bb, n, fs) && p < |codes|
    ensures flags != 1 ==> r > 0
    ensures flags == 1 ==> Written(tb, codes, p + 1, Or(codes[p], 256), ts, i, 8, bytes, bb, n, fs) && p + 1 < |codes|
  {
    AtGroup(tb, codes, p, flags, ts, i, r);
    if flags == 1 { AtGroup(tb, codes, p + 1, Or(codes[p], 256), ts, i, 8); }
    hide Settled, Fields, Midway, Writable, Or;
  }

  /** One turn of the fast loop; it gives up when the output is full. */
  method FastTurn(out: Output, tb: Tables, codes: seq<Byte>, p: nat, flags: nat, pos: nat, bitBuffer: nat, bitsIn: nat,
                  ghost ts: seq<Token>, ghost i: nat, ghost r: nat, ghost fs: seq<Field>)
    returns (full: bool, p': nat, flags': nat, pos': nat, bitBuffer': nat, bitsIn': nat, ghost i': nat, ghost r': nat)
    requires out.Kept() && out.pos <= pos <= out.buf.Length && out.end + 16 <= out.buf.Length && bitsIn <= 7
             && p < |codes|
    requires i <= |ts| && Writable(tb) && AllRecordable(ts)
    requires Written(tb, codes, p, flags, ts, i, r, out.buf[..pos], bitBuffer, bitsIn, fs)
    modifies out.buf
    ensures out.Kept() && (full ==> out.end <= Len(fs + BlockFields(tb, ts)) / 8)
    ensures !full ==> pos <= pos' <= out.buf.Length && bitsIn' <= 7 && i < i' <= |ts|
    ensures !full ==> Written(tb, codes, p', flags', ts, i', r', out.buf[..pos'], bitBuffer', bitsIn', fs)
  {
    hide *;
    full, p', flags', pos', i', r' := false, p, flags, pos, i, r;
    ghost var bytes := out.buf[..pos];
    WrittenAtGroup(tb, codes, p, flags, ts, i, r, bytes, bitBuffer, bitsIn, fs);
    if flags == 1 {
      flags' := Or(codes[p], 256);
      p' := p + 1;
      r' := 8;
    }
    p', flags', bitBuffer', bitsIn', i', r' := FastStep(tb, codes, p', flags', bitBuffer, bitsIn, ts, i, r', bytes, fs);
    WrittenIs(tb, codes, p', flags', ts, i', r', bytes, bitBuffer', bitsIn', fs);
    if pos >= out.end {
      BlockIsLonger(bytes, bitBuffer', bitsIn', fs, tb, ts, i');
      full := true;
    } else {
      pos', bitBuffer', bitsIn' := Store(out, pos, bitBuffer', bitsIn', fs + Fields(tb, ts[..i']));
      IsWritten(tb, codes, p', flags', ts, i', r', out.buf[..pos'], bitBuffer', bitsIn', fs);
    }
  }

  /** The fast tdefl_compress_lz_codes. */
  method CompressFast(out: Output, tb: Tables, codes: seq<Byte>, ghost fs: seq<Field>, ghost ts: seq<Token>)
    returns (ok: bool)
    requires out.Valid(fs) && out.pos <= out.buf.Length && Settled(out.buf[..out.pos], out.bitBuffer, out.bitsIn, fs)
    requires out.end + 16 <= out.buf.Length && Writable(tb) && AllRecordable(ts) && codes == Encoded(ts)
    modifies out`pos, out`bitBuffer, out`bitsIn, out.buf
    ensures ok <==> Len(fs + BlockFields(tb, ts)) / 8 < out.end
    ensures ok ==> out.Valid(fs + BlockFields(tb, ts))
    ensures out.Kept() && out.end <= out.buf.Length
  {
    OutputBits(out, fs);
    hide *;
    var p: nat, flags: nat, pos, bitBuffer, bitsIn := 0, 1, out.pos, out.bitBuffer, out.bitsIn;
    ghost var i: nat, r: nat := 0, 0;
    WrittenAtStart(tb, ts, out.buf[..pos], bitBuffer, bitsIn, fs);
    while p < |codes|
      invariant out.pos <= pos <= out.buf.Length && bitsIn <= 7 && i <= |ts| && out.Kept()
      invariant Written(tb, codes, p, flags, ts, i, r, out.buf[..pos], bitBuffer, bitsIn, fs)
      decreases |ts| - i
    {
      var full;
      full, p, flags, pos, bitBuffer, bitsIn, i, r := FastTurn(out, tb, codes, p, flags, pos, bitBuffer, bitsIn, ts, i,
                                                               r, fs);
      if full { return false; }
    }
    WrittenIs(tb, codes, p, flags, ts, i, r, out.buf[..pos], bitBuffer, bitsIn, fs);
    assert ts[..i] == ts;
    ok := EndFast(out, tb, pos, bitBuffer, bitsIn, fs, ts);
  }

  method EndFast(out: Output, tb: Tables, pos: nat, bitBuffer: nat, bitsIn: nat, ghost fs: seq<Field>,
                 ghost ts: seq<Token>)
    returns (ok: bool)
    requires Writable(tb) && AllRecordable(ts) && out.Kept() && out.pos <= pos <= out.buf.Length
             && out.end <= out.buf.Length
    requires Settled(out.buf[..pos], bitBuffer, bitsIn, fs + Fields(tb, ts))
    modifies out`pos, out`bitBuffer, out`bitsIn, out.buf
    ensures ok <==> Len(fs + BlockFields(tb, ts)) / 8 < out.end
    ensures out.Valid(fs + BlockFields(tb, ts)) && out.Kept()
  {
    hide *;
    FinishFast(out, tb, pos, bitBuffer, bitsIn, fs + Fields(tb, ts));
    BlockFieldsAre(fs, tb, ts);
    RoomIfFits(out, fs + BlockFields(tb, ts));
    OutputBits(out, fs + BlockFields(tb, ts));
    ok := out.pos < out.end;
  }

  lemma OutputBits(out: Output, fs: seq<Field>)
    requires out.Valid(fs)
    ensures out.bitsIn <= 7 && out.Kept() && out.end <= out.buf.Length
  {
  }

  lemma IsWritten(tb: Tables, codes: seq<Byte>, p: nat, flags: nat, ts: seq<Token>, i: nat, r: nat,
                  bytes: seq<Byte>, bb: nat, n: nat, fs: seq<Field>)
    requires Midway(tb, codes, p, flags, ts, i, r) && Writable(tb) && i <= |ts| && AllRecordable(ts[..i])
    requires Settled(bytes, bb, n, fs + Fields(tb, ts[..i]))
    ensures Written(tb, codes, p, flags, ts, i, r, bytes, bb, n, fs)
  {
  }

  /** After the last store: the pending bits and the end-of-block code. */
  method FinishFast(out: Output, tb: Tables, pos: nat, bitBuffer: nat, bitsIn: nat, ghost fs: seq<Field>)
    requires Writable(tb) && out.Kept() && out.pos <= pos <= out.buf.Length
             && Settled(out.buf[..pos], bitBuffer, bitsIn, fs) && out.end <= out.buf.Length
    modifies out`pos, out`bitBuffer, out`bitsIn, out.buf
    ensures out.Valid(fs + [CodeField(tb.lit, END_OF_BLOCK)])
  {
    SettledIs(out.buf[..pos], bitBuffer, bitsIn, fs);
    hide *;
    KeptIs(out);
    out.pos, out.bitsIn, out.bitBuffer := pos, 0, 0;
    KeptIs(out);
    OnlyBytes(out);
    Drain(out, bitBuffer, bitsIn, ByteFields(out.buf[..pos]), fs);
    CodeFacts(tb);
    EndFieldIs(tb);
    out.PutBits(tb.lit.codes[256], tb.lit.sizes[256], fs);
  }

  /** Whenever the block fits, both writers leave the same bytes, the same position and the same pending bits;
      when it does not, both say so. */
  lemma WritersAgree(simple: Output, fast: Output, fs: seq<Field>)
    requires simple.Valid(fs) && fast.Valid(fs) && simple.end == fast.end && Len(fs) / 8 < simple.end
    ensures simple.pos == fast.pos <= simple.buf.Length && fast.pos <= fast.buf.Length
    ensures simple.buf[..simple.pos] == fast.buf[..fast.pos]
    ensures simple.bitBuffer == fast.bitBuffer && simple.bitsIn == fast.bitsIn
  {
    RoomIfFits(simple, fs);
    RoomIfFits(fast, fs);
    var s, t := simple.buf[..][..simple.pos], fast.buf[..][..fast.pos];
    OutputIsUnique(s, simple.bitBuffer, simple.bitsIn, t, fast.bitBuffer, fast.bitsIn, fs);
    assert s == simple.buf[..simple.pos] && t == fast.buf[..fast.pos];
  }

  /** Both writers side by side, on the same token buffer and equal outputs. */
  method CompressBoth(simple: Output, fast: Output, tb: Tables, codes: seq<Byte>, ghost fs: seq<Field>,
                      ghost ts: seq<Token>)
    returns (okSimple: bool, okFast: bool)
    requires simple != fast && simple.buf != fast.buf && simple.end == fast.end
    requires simple.Valid(fs) && fast.Valid(fs) && fast.end + 16 <= fast.buf.Length
    requires fast.pos <= fast.buf.Length && Settled(fast.buf[..fast.pos], fast.bitBuffer, fast.bitsIn, fs)
    requires Writable(tb) && AllRecordable(ts) && codes == Encoded(ts)
    modifies simple`pos, simple`bitBuffer, simple`bitsIn, simple.buf, fast`pos, fast`bitBuffer, fast`bitsIn, fast.buf
    ensures okSimple == okFast
    ensures okFast ==> simple.pos == fast.pos <= simple.buf.Length && fast.pos <= fast.buf.Length
    ensures okFast ==> simple.buf[..simple.pos] == fast.buf[..fast.pos]
    ensures okFast ==> simple.bitBuffer == fast.bitBuffer && simple.bitsIn == fast.bitsIn
  {
    hide *;
    okSimple := CompressSimple(simple, tb, codes, fs, ts);
    okFast := CompressFast(fast, tb, codes, fs, ts);
    if okFast { WritersAgree(simple, fast, fs + BlockFields(tb, ts)); }
  }
}
