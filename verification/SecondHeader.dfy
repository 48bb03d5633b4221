/** Where the zlib header fails. */
module SecondHeader {
  // The input that shows it: 2^32 sync flushes without data, and then the end of the stream. The last block has the
  // number 0 again and gets a second header, which the decompressor takes for a raw block.

  import opened Arith
  import opened Bits
  import opened Wrappers
  import opened BitStream
  import opened Tokens
  import opened LzCodes
  import opened CanonicalCode
  import opened BlockForm
  import opened Blocks
  import opened FlushBlock
  import opened BlockSink
  import opened LzParser
  import opened ZlibStream
  import opened Codec
  import Adler32
  import BitEmitter
  import opened BitOutput
  import DynamicHeader
  import InflateBlock

  // ----- the last block: static, without tokens

  lemma {:induction false} NoShortCodes(sizes: seq<nat>, l: nat)
    requires sizes == StaticLit() && l <= 7
    ensures FirstCode(sizes, l) == 0
  {
    if l >= 2 {
      NoShortCodes(sizes, l - 1);
      StaticCount(sizes, l - 1, 288);
      FirstCodeStep(sizes, l);
    }
  }

  lemma {:induction false} RevZero(n: nat)
    ensures Rev(0, n) == 0
  {
    if n > 0 { RevZero(n - 1); }
  }

  /** The static code for the end of a block is seven zero bits. */
  lemma EndCode(tb: BitEmitter.Tables)
    requires Block(Static, tb, [])
    ensures |tb.lit.sizes| == |tb.lit.codes| == 288 && BitEmitter.CodeField(tb.lit, 256) == Field(0, 7)
  {
    var sizes := tb.lit.sizes;
    StaticFormed(tb, []);
    NoShortCodes(sizes, 7);
    StaticCount(sizes, 7, 256);
    RevZero(7);
    assert tb.lit.codes[256] == RevCode(sizes, 256);
    hide FirstCode, CountOf, Rev;
    assert Code(sizes, 256) == 0;
  }

  lemma EmptyFields(p: Piece, at: nat)
    requires EmptyStatic(p, true)
    ensures Good(p) && PieceFields(p, at) == [Field(1, 1), Field(1, 2), Field(0, 7)]
  {
    var Coded(final, form, tb, ts) := p;
    BlockIs(form, tb, ts);
    StreamParts(form, tb, ts);
    StaticFields();
    EndCode(tb);
    NoTokens(tb);
    hide BlockStream, Block, FormFields, BitEmitter.BlockFields, BitEmitter.CodeField;
    assert [Field(1, 1)] + ([Field(1, 2)] + [Field(0, 7)]) == [Field(1, 1), Field(1, 2), Field(0, 7)];
  }

  lemma NoTokens(tb: BitEmitter.Tables)
    requires BitEmitter.Writable(tb) && |tb.lit.sizes| == |tb.lit.codes| == 288
    ensures AllRecordable([]) && BitEmitter.BlockFields(tb, []) == [BitEmitter.CodeField(tb.lit, 256)]
  {
  }

  // ----- the second header is read as a raw block with a wrong check

  function Mistaken(): Piece {
    Rejected(false, WrongCheck(15, 0x301, 0))
  }

  lemma MistakenFields(at: nat)
    requires at % 8 == 0
    ensures Good(Mistaken())
    ensures PieceFields(Mistaken(), at) == [Field(0, 1), Field(0, 2), Field(15, 5), Field(0x301, 16), Field(0, 16)]
  {
    Align(at);
    FifteenFits();
  }

  lemma Align(at: nat)
    requires at % 8 == 0
    ensures (at + 3) % 8 == 3
  {
  }

  lemma FifteenFits()
    ensures Low(15, 5) == 15
  {
    SmallPowers();
  }

  /** A field in front. */
  lemma Front(f: Field, fs: seq<Field>, p: nat)
    requires p == Pow2(f.len)
    ensures Val([f] + fs) == f.bits + Val(fs) * p && Len([f] + fs) == f.len + Len(fs)
  {
    assert ([f] + fs)[1..] == fs;
  }

  lemma Values(fs: seq<Field>, v: nat, l: nat, f: Field, p: nat)
    requires Val(fs) == v && Len(fs) == l && p == Pow2(f.len)
    ensures Val([f] + fs) == f.bits + v * p && Len([f] + fs) == f.len + l
  {
    Front(f, fs, p);
  }

  lemma PowersAre()
    ensures Pow2(1) == 2 && Pow2(2) == 4 && Pow2(5) == 32 && Pow2(6) == 64 && Pow2(7) == 128 && Pow2(8) == 256
    ensures Pow2(16) == 65536
  {
    SmallPowers();
    Pow2Values();
  }

  /** The padding and the checksum of nothing as one number. */
  lemma PaddedTrailer() returns (fs: seq<Field>)
    ensures fs == [Field(0, 6), Field(0, 8), Field(0, 8), Field(0, 8), Field(1, 8)]
    ensures Val(fs) == 0x4000_0000 && Len(fs) == 38
  {
    PowersAre();
    assert Val([]) == 0 && Len([]) == 0;
    hide *;
    fs := [];
    Values(fs, 0, 0, Field(1, 8), 256);
    fs := [Field(1, 8)] + fs;
    Values(fs, 1, 8, Field(0, 8), 256);
    fs := [Field(0, 8)] + fs;
    Values(fs, 0x100, 16, Field(0, 8), 256);
    fs := [Field(0, 8)] + fs;
    Values(fs, 0x1_0000, 24, Field(0, 8), 256);
    fs := [Field(0, 8)] + fs;
    Values(fs, 0x100_0000, 32, Field(0, 6), 64);
    fs := [Field(0, 6)] + fs;
  }

  /** The header, the empty block, the padding and the checksum of nothing as one number. */
  lemma AsWritten() returns (fs: seq<Field>)
    ensures fs == [Field(0x78, 8), Field(1, 8), Field(1, 1), Field(1, 2), Field(0, 7), Field(0, 6),
                   Field(0, 8), Field(0, 8), Field(0, 8), Field(1, 8)]
    ensures Val(fs) == 0x0100_0000_0003_0178 && Len(fs) == 64
  {
    PowersAre();
    hide *;
    fs := PaddedTrailer();
    Values(fs, 0x4000_0000, 38, Field(0, 7), 128);
    fs := [Field(0, 7)] + fs;
    Values(fs, 0x20_0000_0000, 45, Field(1, 2), 4);
    fs := [Field(1, 2)] + fs;
    Values(fs, 0x80_0000_0001, 47, Field(1, 1), 2);
    fs := [Field(1, 1)] + fs;
    Values(fs, 0x100_0000_0003, 48, Field(1, 8), 256);
    fs := [Field(1, 8)] + fs;
    Values(fs, 0x1_0000_0000_0301, 56, Field(0x78, 8), 256);
    fs := [Field(0x78, 8)] + fs;
  }

  /** The raw block with the wrong check and three bytes as one number. */
  lemma AsRead() returns (fs: seq<Field>)
    ensures fs == [Field(0, 1), Field(0, 2), Field(15, 5), Field(0x301, 16), Field(0, 16),
                   Field(0, 8), Field(0, 8), Field(1, 8)]
    ensures Val(fs) == 0x0100_0000_0003_0178 && Len(fs) == 64
  {
    PowersAre();
    assert Val([]) == 0 && Len([]) == 0;
    hide *;
    fs := [];
    Values(fs, 0, 0, Field(1, 8), 256);
    fs := [Field(1, 8)] + fs;
    Values(fs, 1, 8, Field(0, 8), 256);
    fs := [Field(0, 8)] + fs;
    Values(fs, 0x100, 16, Field(0, 8), 256);
    fs := [Field(0, 8)] + fs;
    Values(fs, 0x1_0000, 24, Field(0, 16), 65536);
    fs := [Field(0, 16)] + fs;
    Values(fs, 0x1_0000_0000, 40, Field(0x301, 16), 65536);
    fs := [Field(0x301, 16)] + fs;
    Values(fs, 0x1_0000_0000_0301, 56, Field(15, 5), 32);
    fs := [Field(15, 5)] + fs;
    Values(fs, 0x20_0000_0000_602F, 61, Field(0, 2), 4);
    fs := [Field(0, 2)] + fs;
    Values(fs, 0x80_0000_0001_80BC, 63, Field(0, 1), 2);
    fs := [Field(0, 1)] + fs;
  }

  lemma Confused()
    ensures Same([Field(0x78, 8), Field(1, 8), Field(1, 1), Field(1, 2), Field(0, 7), Field(0, 6),
                  Field(0, 8), Field(0, 8), Field(0, 8), Field(1, 8)],
                 [Field(0, 1), Field(0, 2), Field(15, 5), Field(0x301, 16), Field(0, 16),
                  Field(0, 8), Field(0, 8), Field(1, 8)])
  {
    hide *;
    var fs := AsWritten();
    var gs := AsRead();
    SameIs(fs, gs);
  }

  // ----- the whole stream

  /** Behind the marker of a sync flush the stream is at a byte boundary. */
  lemma MarkerAligns(hs: seq<bool>, ps: seq<Piece>)
    requires AllGood(ps) && |hs| == |ps| > 0 && ps[|ps| - 1] == Raw(false, []) && !hs[|ps| - 1]
    ensures Len(Framed(hs, ps)) % 8 == 0
  {
    hide *;
    var n := |ps| - 1;
    var e := Raw(false, []);
    assert hs[..n] + [false] == hs && ps[..n] + [e] == ps;
    AllButLast(ps);
    EmptyRawLen(0);
    FramedSnoc(hs[..n], ps[..n], false, e);
    var fs := Framed(hs[..n], ps[..n]);
    var f := PieceFields(e, Len(fs));
    assert HeadFields(false) + f == f;
    Append(fs, f);
    EmptyRawLen(Len(fs));
  }

  lemma EmptyRawLen(at: nat)
    ensures Good(Raw(false, [])) && (at + Len(PieceFields(Raw(false, []), at))) % 8 == 0
  {
    EmptyIsGood();
    hide *;
    var e := Raw(false, []);
    RawPieceFields(e, at);
    PadIs(at + 3);
    NothingInside(at + 3);
    var f, z, r := [Field(FinalBit(e), 1)], [Field(0, 2)], RawFields([], at + 3);
    Append(f, z + r);
    Append(z, r);
    Single(Field(FinalBit(e), 1));
    Single(Field(0, 2));
    Align35(at, Len(PadFields(at + 3)));
  }

  lemma Align35(at: nat, pad: nat)
    requires (at + 3 + pad) % 8 == 0
    ensures (at + (1 + (2 + (pad + 32)))) % 8 == 0
  {
  }

  lemma NothingInside(at: nat)
    ensures Len(RawFields([], at)) == Len(PadFields(at)) + 32
  {
    var p, n, c := PadFields(at), [Field(0, 16)], [Field(0xFFFF, 16)];
    assert ByteFields([]) == [];
    assert RawFields([], at) == p + (n + c) by { assert c + [] == c; }
    Single(Field(0, 16));
    Single(Field(0xFFFF, 16));
    hide Len, PadFields;
    Append(p, n + c);
    Append(n, c);
  }

  // The fields of the last block, what it was taken for, and the bytes behind.

  function Empty(): seq<Field> { [Field(1, 1), Field(1, 2), Field(0, 7)] }

  function Taken(): seq<Field> { [Field(0, 1), Field(0, 2), Field(15, 5), Field(0x301, 16), Field(0, 16)] }

  const CHECKSUM: seq<Byte> := [0, 0, 0, 1]
  const BEHIND: seq<Byte> := [0, 0, 1]

  lemma EmptyLen()
    ensures Len(Empty()) == 10 && |CHECKSUM| == 4 && Trailer(true, 1) == CHECKSUM
  {
    assert Empty()[1..] == [Field(1, 2), Field(0, 7)] && Empty()[1..][1..] == [Field(0, 7)];
    assert Len([Field(0, 7)]) == 7 by { Single(Field(0, 7)); }
  }

  /** How much padding the last byte has. */
  lemma SixBits(bytes: nat, before: nat, pad: nat)
    requires 8 * bytes == before + 26 + pad + 32 && before % 8 == 0 && pad < 8
    ensures pad == 6
  {
  }

  lemma PaddingIs(bytes: seq<Byte>, fs: seq<Field>, pad: nat)
    requires Same(ByteFields(bytes), fs + (HeadFields(true) + Empty()) + [Field(0, pad)] + ByteFields(CHECKSUM))
    requires Len(fs) % 8 == 0 && pad < 8
    ensures pad == 6
  {
    hide *;
    var h, e, f, t := HeadFields(true), Empty(), [Field(0, pad)], ByteFields(CHECKSUM);
    EmptyLen();
    HeadLen(true);
    ByteFieldsLen(bytes);
    ByteFieldsLen(CHECKSUM);
    Single(Field(0, pad));
    Append(fs + (h + e) + f, t);
    Append(fs + (h + e), f);
    Append(fs, h + e);
    Append(h, e);
    SameValues(ByteFields(bytes), fs + (h + e) + f + t);
    SixBits(|bytes|, Len(fs), pad);
  }

  lemma WrittenIs()
    ensures HeadFields(true) + Empty() + [Field(0, 6)] + ByteFields(CHECKSUM)
            == [Field(0x78, 8), Field(1, 8), Field(1, 1), Field(1, 2), Field(0, 7), Field(0, 6),
                Field(0, 8), Field(0, 8), Field(0, 8), Field(1, 8)]
  {
    assert ByteFields(CHECKSUM) == [Field(0, 8), Field(0, 8), Field(0, 8), Field(1, 8)];
  }

  lemma TakenIs()
    ensures Taken() + ByteFields(BEHIND)
            == [Field(0, 1), Field(0, 2), Field(15, 5), Field(0x301, 16), Field(0, 16),
                Field(0, 8), Field(0, 8), Field(1, 8)]
  {
    assert ByteFields(BEHIND) == [Field(0, 8), Field(0, 8), Field(1, 8)];
  }

  /** The last block, its padding and the checksum are the same bits as the raw block and three bytes. */
  lemma LastIsTaken()
    ensures Same(HeadFields(true) + Empty() + [Field(0, 6)] + ByteFields(CHECKSUM),
                 Taken() + ([Field(0, 0)] + ByteFields(BEHIND)))
  {
    WrittenIs();
    TakenIs();
    Confused();
    hide *;
    var w, t, z, b := HeadFields(true) + Empty() + [Field(0, 6)] + ByteFields(CHECKSUM), Taken(), [Field(0, 0)],
        ByteFields(BEHIND);
    BitEmitter.EmptyField(t);
    SameSymmetric(t + z, t);
    SameAppend(t, t + z, b);
    DynamicHeader.Regroup(t, z, b);
    SameTransitive(w, t + b, t + (z + b));
  }

  /** What the decompressor finds behind the first header. */
  lemma Reread(bytes: seq<Byte>, before: seq<Field>, pad: nat)
    requires Same(ByteFields(bytes),
                  HeadFields(true) + before + (HeadFields(true) + Empty()) + [Field(0, pad)] + ByteFields(CHECKSUM))
    requires Len(before) % 8 == 0 && pad < 8
    ensures |bytes| >= 2 && HeaderOk(bytes[0], bytes[1])
    ensures Same(ByteFields(bytes[2..]), before + Taken() + ([Field(0, 0)] + ByteFields(BEHIND)))
  {
    hide *;
    var h, e, t := HeadFields(true), Empty(), ByteFields(CHECKSUM);
    var r := Taken() + ([Field(0, 0)] + ByteFields(BEHIND));
    HeadLen(true);
    Append(h, before);
    WholeBytes(Len(before));
    PaddingIs(bytes, h + before, pad);
    var w := h + e + [Field(0, 6)] + t;
    assert h + before + (h + e) + [Field(0, 6)] + t == h + (before + w);
    HeaderIsRead(bytes, before + w);
    LastIsTaken();
    SamePrepend(before, w, r);
    SameTransitive(ByteFields(bytes[2..]), before + w, before + r);
    DynamicHeader.Regroup(before, Taken(), [Field(0, 0)] + ByteFields(BEHIND));
  }

  lemma WholeBytes(l: nat)
    requires l % 8 == 0
    ensures (16 + l) % 8 == 0
  {
  }

  lemma TwoBytesLess(l: nat)
    requires (16 + l) % 8 == 0
    ensures l % 8 == 0
  {
  }

  /** The decompressor gets through the empty blocks and rejects what it finds behind them. */
  lemma RejectedAtEnd(ps: seq<Piece>)
    requires AllGood(ps) && Play(ps, []) == Some([]) && forall i :: 0 <= i < |ps| ==> !Stops(ps[i])
    ensures AllGood(ps + [Mistaken()]) && Ended(ps + [Mistaken()]) && NothingOf(ps + [Mistaken()])
  {
    hide *;
    var r := Mistaken();
    MistakenIs();
    EndsWith(ps, r);
    RejectedIs(ps, r);
  }

  lemma MistakenIs()
    ensures Good(Mistaken()) && Stops(Mistaken()) && Mistaken().Rejected?
  {
  }

  lemma EndsWith(ps: seq<Piece>, r: Piece)
    requires AllGood(ps) && Good(r) && Stops(r) && forall i :: 0 <= i < |ps| ==> !Stops(ps[i])
    ensures AllGood(ps + [r]) && Ended(ps + [r]) && forall i :: 0 <= i < |ps + [r]| - 1 ==> !Stops((ps + [r])[i])
  {
    hide Good, Stops;
  }

  /** Blocks that are rejected before anything comes out of them. */
  ghost predicate NothingOf(ps: seq<Piece>) {
    Play(ps, []) == None && Played(ps, []) == []
  }

  lemma NothingIs(ps: seq<Piece>)
    requires NothingOf(ps)
    ensures Play(ps, []) == None && |Played(ps, [])| == 0
  {
  }

  lemma RejectedIs(ps: seq<Piece>, r: Piece)
    requires Play(ps, []) == Some([]) && r.Rejected?
    ensures NothingOf(ps + [r])
  {
    PlaySnoc(ps, r, []);
    PlayedSnoc(ps, r, []);
    hide Play, Played;
  }

  lemma NoHeadLast(fl: seq<bool>)
    requires fl != [] && !fl[|fl| - 1]
    ensures !Heads(true, fl)[|fl| - 1]
  {
  }

  /** All blocks but the last one: the header, and a stream of whole bytes. */
  lemma FirstBlocks(fl: seq<bool>, ps: seq<Piece>)
    requires AllGood(ps) && ps != [] && ps[|ps| - 1] == Raw(false, [])
    requires |fl| == |ps| && fl[0] && !fl[|ps| - 1] && Flushes(fl) == BLOCK_NUMBERS
    ensures Framed(Heads(true, fl), ps) == HeadFields(true) + Stream(ps, 0) && Len(Stream(ps, 0)) % 8 == 0
    ensures Heads(true, fl + [true]) == Heads(true, fl) + [true]
  {
    hide *;
    SecondHeader(fl);
    NoHeadLast(fl);
    MarkerAligns(Heads(true, fl), ps);
    HeadsAre(Heads(true, fl), true);
    FramedIsStream(Heads(true, fl), ps, true);
    HeadLen(true);
    Append(HeadFields(true), Stream(ps, 0));
    TwoBytesLess(Len(Stream(ps, 0)));
  }

  /** The last block with its header, behind them. */
  lemma LastBlock(hs: seq<bool>, ps: seq<Piece>, p: Piece)
    requires AllGood(ps) && |hs| == |ps| && EmptyStatic(p, true)
    ensures AllGood(ps + [p]) && Framed(hs + [true], ps + [p]) == Framed(hs, ps) + (HeadFields(true) + Empty())
  {
    hide *;
    EmptyIs();
    EmptyFields(p, Len(Framed(hs, ps)));
    FramedSnoc(hs, ps, true, p);
  }

  /** What is rejected: the blocks, and the one that the last header is taken for. */
  lemma TakenBody(bytes: seq<Byte>, ps: seq<Piece>)
    requires AllGood(ps) && Play(ps, []) == Some([]) && forall i :: 0 <= i < |ps| ==> !Stops(ps[i])
    requires Len(Stream(ps, 0)) % 8 == 0
    requires Same(ByteFields(bytes), Stream(ps, 0) + Taken() + ([Field(0, 0)] + ByteFields(BEHIND)))
    ensures ZlibStream.Body(bytes, ps + [Mistaken()], 0, 0, BEHIND) && NothingOf(ps + [Mistaken()])
  {
    hide *;
    EmptyIs();
    RejectedAtEnd(ps);
    MistakenFields(Len(Stream(ps, 0)));
    StreamSnoc(ps, Mistaken(), 0);
    ZeroFits(0);
    IsBody(bytes, ps + [Mistaken()], 0, 0, BEHIND);
  }

  /** Whatever the compressor hands out for this input, the decompressor rejects it. */
  lemma IsRejected(bytes: seq<Byte>, fl: seq<bool>, ps: seq<Piece>, p: Piece, tokens: seq<Token>)
    requires AllGood(ps) && ps != [] && ps[|ps| - 1] == Raw(false, []) && EmptyStatic(p, true)
    requires |fl| == |ps| && fl[0] && !fl[|ps| - 1] && Flushes(fl) == BLOCK_NUMBERS && Play(ps, []) == Some([])
    requires forall i :: 0 <= i < |ps| ==> !Stops(ps[i])
    requires SunkAll(bytes, Heads(true, fl + [true]), ps + [p], CHECKSUM, tokens)
    ensures |bytes| >= 2 && HeaderOk(bytes[0], bytes[1])
    ensures ZlibStream.Body(bytes[2..], ps + [Mistaken()], 0, 0, BEHIND)
    ensures NothingOf(ps + [Mistaken()])
  {
    hide *;
    FirstBlocks(fl, ps);
    LastBlock(Heads(true, fl), ps, p);
    var pad := SunkPad(bytes, Heads(true, fl + [true]), ps + [p], CHECKSUM, tokens);
    Reread(bytes, Stream(ps, 0), pad);
    TakenBody(bytes[2..], ps);
  }

  lemma EmptyIs()
    ensures Empty() == [Field(1, 1), Field(1, 2), Field(0, 7)]
    ensures Taken() == [Field(0, 1), Field(0, 2), Field(15, 5), Field(0x301, 16), Field(0, 16)]
  {
  }

  // ----- the run

  /** After i sync flushes without data. */
  ghost predicate OnlyFlushed(i: nat, fl: seq<bool>, ps: seq<Piece>) {
    && |fl| == |ps| && Flushes(fl) == i && (i == 0 ==> ps == [])
    && (i > 0 ==> ps != [] && fl[0] && !fl[|ps| - 1] && ps[|ps| - 1] == Raw(false, []))
  }

  lemma NoneYet()
    ensures OnlyFlushed(0, [], [])
  {
  }

  lemma OneFlushMore(i: nat, fl: seq<bool>, ps: seq<Piece>, fl': seq<bool>, ps': seq<Piece>)
    requires OnlyFlushed(i, fl, ps) && Grown(fl, ps, SyncFlush, fl', ps')
    ensures OnlyFlushed(i + 1, fl', ps')
  {
    FlushesSnoc(fl, true);
    FlushesSnoc(fl + [true], false);
    hide Flushes;
  }

  /** 2^32 sync flushes without data and then the end of the stream, with a zlib header and no raw blocks asked for: the
      decompressor does not accept what was handed out, however much room it has. */
  method FlushedTooOften(options: Options, room: nat) returns (bytes: seq<Byte>, status: ZlibStatus)
    requires !options.rawBlocks
    ensures status == Inflated(InflateBlock.Failed)
  {
    hide *;
    var c := new Compressor(options.greedy, options.rleMatches, options.rawBlocks, options.staticBlocks,
                            options.filterMatches, options.nondeterministic, MaxProbes(options.probes), true, true);
    var used, stopped;
    NoneYet();
    BlockNumbersIs();
    ChecksumOfNothing();
    assert c.sink.flushed == [] && c.sink.pieces == [];
    for i := 0 to BLOCK_NUMBERS
      invariant c.Valid() && c.data == [] && c.lookaheadSize == 0 && c.block == [] && c.adler32 == 1
      invariant OnlyFlushed(i, c.sink.flushed, c.sink.pieces) && Expand(c.closed, []) == Some([])
    {
      ghost var fl, ps := c.sink.flushed, c.sink.pieces;
      used, stopped := c.Compress([], SyncFlush);
      OneFlushMore(i, fl, ps, c.sink.flushed, c.sink.pieces);
    }
    ghost var fl, ps := c.sink.flushed, c.sink.pieces;
    c.Opened();
    c.sink.SinkIs(c.closed);
    SinkOf(c.sink.bytes, c.sink.out.bitBuffer, c.sink.out.bitsIn, fl, ps, c.closed);
    used, stopped := c.Compress([], Finish);
    bytes := c.sink.bytes;
    ghost var p := LastPiece(fl, ps, c.sink.flushed, c.sink.pieces);
    EmptyLen();
    IsRejected(bytes, fl, ps, p, c.closed);
    NothingIs(ps + [Mistaken()]);
    var out := new Byte[room];
    var size;
    status, size := InflateZlib(bytes, out, ps + [Mistaken()], 0, 0, BEHIND);
  }

  lemma ChecksumOfNothing()
    ensures Adler32.Checksum(1, []) == 1 && Expand([], []) == Some([])
  {
    Adler32.NothingChecked(1);
  }

  lemma SinkOf(bytes: seq<Byte>, bb: nat, n: nat, fl: seq<bool>, ps: seq<Piece>, closed: seq<Token>)
    requires Sunk(bytes, bb, n, Heads(true, fl), ps, closed) && OnlyFlushed(BLOCK_NUMBERS, fl, ps)
    requires Expand(closed, []) == Some([])
    ensures AllGood(ps) && ps != [] && ps[|ps| - 1] == Raw(false, []) && Play(ps, []) == Some([])
    ensures |fl| == |ps| && fl[0] && !fl[|ps| - 1] && Flushes(fl) == BLOCK_NUMBERS
    ensures forall i :: 0 <= i < |ps| ==> !Stops(ps[i])
  {
    hide Heads, Flushes, Framed, Settled;
  }

  lemma LastPiece(fl: seq<bool>, ps: seq<Piece>, fl': seq<bool>, ps': seq<Piece>) returns (p: Piece)
    requires Grown(fl, ps, Finish, fl', ps')
    ensures |ps'| > |ps| && p == ps'[|ps|] && ps' == ps + [p] && fl' == fl + [true]
  {
    p := ps'[|ps|];
    assert fl + [true] + [] == fl + [true];
  }
}
