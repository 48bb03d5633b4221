/** The codec, end to end. */
module Codec {
  // What compression makes, decompression turns back into the data.

  import opened Wrappers
  import opened BitStream
  import opened Tokens
  import opened Blocks
  import opened FlushBlock
  import opened BlockSink
  import opened LzCodes
  import opened LzMatching
  import opened LzParser
  import opened HashChain
  import opened ParseTrace
  import opened ZlibStream
  import Adler32
  import InflateBlock
  import DynamicHeader

  /** What the deflate flags choose. The callback that grows a heap buffer is taken never to fail. */
  datatype Options = Options(greedy: bool, rleMatches: bool, rawBlocks: bool, staticBlocks: bool, filterMatches: bool,
                             nondeterministic: bool, probes: nat)

  /** m_max_probes as tdefl_init sets it: one more than the rounds of three probes that make up the number asked for,
      and a quarter of it. */
  function MaxProbes(probes: nat): (r: (nat, nat))
    ensures r.0 >= 1 && 3 * (r.0 - 1) >= probes % 4096 > 3 * (r.0 - 2)
    ensures r.1 >= 1 && 3 * (r.1 - 1) >= probes % 4096 / 4 > 3 * (r.1 - 2)
  {
    (1 + (probes % 4096 + 2) / 3, 1 + (probes % 4096 / 4 + 2) / 3)
  }

  /** What the compressor has handed out at the end, for the given data. The blocks are the flushed ones and markers. */
  ghost predicate Compressed(bytes: seq<Byte>, zlib: bool, flushed: seq<bool>, ps: seq<Piece>, adler: nat,
                             tokens: seq<Token>, data: seq<Byte>) {
    && SunkAll(bytes, Heads(zlib, flushed), ps, Trailer(zlib, adler), tokens) && Expand(tokens, []) == Some(data)
    && adler < 0x1_0000_0000 && (zlib ==> adler == Adler32.Checksum(1, data))
    && (OneHead(Heads(zlib, flushed), zlib) <==> (zlib ==> Flushes(flushed) <= BLOCK_NUMBERS))
  }

  lemma IsCompressed(bytes: seq<Byte>, zlib: bool, blockIndex: nat, flushed: seq<bool>, ps: seq<Piece>, adler: nat,
                     tokens: seq<Token>, data: seq<Byte>)
    requires SunkAll(bytes, Heads(zlib, flushed), ps, Trailer(zlib, adler), tokens) && Expand(tokens, []) == Some(data)
    requires adler < 0x1_0000_0000 && (zlib ==> adler == Adler32.Checksum(1, data)) && Numbered(blockIndex, flushed)
    ensures Compressed(bytes, zlib, flushed, ps, adler, tokens, data) && TotalSize(tokens) == |data|
  {
    assert |Heads(zlib, flushed)| == |ps| > 0;
    hide Heads, Flushes, SunkAll;
    OneHeadExactly(zlib, flushed);
    ExpandSize(tokens, []);
  }

  /** Data passed to one call, and the flush asked for behind it. */
  datatype Part = Part(data: seq<Byte>, flush: Flush)

  /** All data, call after call. */
  function Joined(parts: seq<Part>): seq<Byte> {
    if parts == [] then [] else Joined(parts[..|parts| - 1]) + parts[|parts| - 1].data
  }

  lemma OnePartMore(parts: seq<Part>, i: nat)
    requires i < |parts|
    ensures Joined(parts[..i + 1]) == Joined(parts[..i]) + parts[i].data
    ensures Asked(parts[..i + 1]) == Asked(parts[..i]) + if parts[i].flush != NoFlush then 1 else 0
    ensures Adler32.Checksum(1, Joined(parts[..i + 1]))
            == Adler32.Checksum(Adler32.Checksum(1, Joined(parts[..i])), parts[i].data)
  {
    assert parts[..i + 1][..i] == parts[..i];
    OneCallMore(Joined(parts[..i]), parts[i].data);
  }

  lemma NoParts()
    ensures Joined([]) == []
  {
  }

  /** How many of the calls ask for a flush. */
  function Asked(parts: seq<Part>): nat {
    if parts == [] then 0 else Asked(parts[..|parts| - 1]) + if parts[|parts| - 1].flush != NoFlush then 1 else 0
  }

  // ----- the parse

  function ParsingOf(o: Options): Parsing {
    Parsing(o.greedy || o.rleMatches, o.rleMatches, o.rawBlocks, o.filterMatches, MaxProbes(o.probes))
  }

  /** Where the hash chains were emptied last: behind the last full flush. */
  function LastReset(parts: seq<Part>): nat {
    if parts == [] then 0
    else if parts[|parts| - 1].flush == FullFlush then |Joined(parts)| else LastReset(parts[..|parts| - 1])
  }

  /** A turn of a call: it sees 258 bytes, or all there is if the call flushes, and has the chains of all positions
      since the last full flush. */
  ghost predicate InCall(o: Options, total: nat, flush: bool, reset: nat, t: Turn) {
    && t.have == Min(t.at + MAX_MATCH_LEN, total) && (!flush ==> t.have == t.at + MAX_MATCH_LEN)
    && t.base == reset && (!o.nondeterministic ==> Empty(t.start))
  }

  ghost predicate InCallNumber(o: Options, parts: seq<Part>, j: nat, t: Turn)
    requires j < |parts|
  {
    InCall(o, |Joined(parts[..j + 1])|, parts[j].flush != NoFlush, LastReset(parts[..j]), t)
  }

  /** All turns belong to the first n calls. */
  ghost predicate InCalls(o: Options, parts: seq<Part>, n: nat, turns: seq<Turn>) {
    n <= |parts| && forall i :: 0 <= i < |turns| ==> InSomeCall(o, parts, n, turns[i])
  }

  ghost predicate InSomeCall(o: Options, parts: seq<Part>, n: nat, t: Turn)
    requires n <= |parts|
  {
    exists j: nat :: j < n && InCallNumber(o, parts, j, t)
  }

  /** The tokens are those that the turns of the calls record, from the first byte to the last. */
  ghost predicate ParsedBy(o: Options, parts: seq<Part>, turns: seq<Turn>, tokens: seq<Token>) {
    && Trace(ParsingOf(o), Joined(parts), turns) && TokensOf(ParsingOf(o), Joined(parts), turns) == tokens
    && After(ParsingOf(o), Joined(parts), turns).0 == |Joined(parts)|
    && After(ParsingOf(o), Joined(parts), turns).1.len == 0
    && InCalls(o, parts, |parts|, turns)
  }

  lemma OneCallMoreSeen(o: Options, parts: seq<Part>, n: nat, before: seq<Turn>, turns: seq<Turn>, start: Links,
                        base: nat)
    requires n < |parts| && InCalls(o, parts, n, before) && before <= turns
    requires SeenBy(turns, |before|, |Joined(parts[..n + 1])|, start, base, parts[n].flush != NoFlush)
    requires base == LastReset(parts[..n]) && (!o.nondeterministic ==> Empty(start))
    ensures InCalls(o, parts, n + 1, turns)
  {
    hide Joined, LastReset, Empty;
    forall i | 0 <= i < |turns|
      ensures InSomeCall(o, parts, n + 1, turns[i])
    {
      if i < |before| {
        assert turns[i] == before[i] && InSomeCall(o, parts, n, before[i]);
      } else {
        assert InCallNumber(o, parts, n, turns[i]);
      }
    }
  }

  lemma OneResetMore(parts: seq<Part>, n: nat)
    requires n < |parts|
    ensures LastReset(parts[..n + 1])
            == if parts[n].flush == FullFlush then |Joined(parts[..n + 1])| else LastReset(parts[..n])
  {
    assert parts[..n + 1][..n] == parts[..n];
    hide Joined;
  }

  lemma NoTurnsYet(o: Options, parts: seq<Part>)
    ensures InCalls(o, parts, 0, []) && LastReset([]) == 0
  {
  }

  /** Ten or more equal bytes in one call: fewer tokens than bytes exactly if matches are looked for at all. */
  lemma RunsAreShort(o: Options, src: seq<Byte>, turns: seq<Turn>, tokens: seq<Token>)
    requires ParsedBy(o, [Part(src, Finish)], turns, tokens) && !o.nondeterministic
    requires |src| >= 10 && AllSame(src)
    ensures |tokens| < |src| <==> !o.rawBlocks && (o.rleMatches || o.probes % 4096 > 0)
  {
    var parts := [Part(src, Finish)];
    OnlyPart(src);
    hide Trace, TokensOf, After, AllSame;
    forall i | 0 <= i < |turns|
      ensures turns[i].have == Min(turns[i].at + MAX_MATCH_LEN, |src|) && turns[i].base == 0 && Empty(turns[i].start)
    {
      assert InSomeCall(o, parts, 1, turns[i]);
      var j: nat :| j < 1 && InCallNumber(o, parts, j, turns[i]);
      assert j == 0 && parts[..1] == parts && parts[..0] == [];
    }
    RunsAreMatched(ParsingOf(o), src, turns);
  }

  lemma OnlyPart(src: seq<Byte>)
    ensures Joined([Part(src, Finish)]) == src && LastReset([]) == 0
  {
    var parts := [Part(src, Finish)];
    assert parts[..0] == [] && [] + src == src;
  }

  /** Any data parsed without looking for matches gives a literal for each byte. */
  lemma UnmatchedAreLiterals(o: Options, parts: seq<Part>, turns: seq<Turn>, tokens: seq<Token>)
    requires ParsedBy(o, parts, turns, tokens) && (o.rawBlocks || (!o.rleMatches && o.probes % 4096 == 0))
    ensures |tokens| == |Joined(parts)|
  {
    hide Trace, TokensOf, After, InCalls, Joined;
    OnlyLiterals(ParsingOf(o), Joined(parts), turns);
  }

  /** tdefl_compress_mem_to_heap: one call with all of the source, to the end of the stream. A block that is not the
      last one holds more than 31 KB of the source. What is handed out is never much longer than the source: up to 31 KB
      of it by at most six bytes, as the block is sent raw if its code expands it, and six for header and checksum. */
  method CompressAll(src: seq<Byte>, options: Options, zlib: bool)
    returns (bytes: seq<Byte>, ghost flushed: seq<bool>, ghost ps: seq<Piece>, ghost adler: nat,
             ghost tokens: seq<Token>, ghost turns: seq<Turn>)
    ensures Compressed(bytes, zlib, flushed, ps, adler, tokens, src)
    ensures ParsedBy(options, [Part(src, Finish)], turns, tokens)
    ensures 8 * |bytes| <= 11 * |src| + 2358 * (|src| / 31745 + 1)
    ensures |src| <= 31 * 1024 ==> |bytes| <= |src| + if zlib then 12 else 6
    ensures Flushes(flushed) <= |src| / 31745 + 1
  {
    hide *;
    bytes, flushed, ps, adler, tokens, turns := CompressParts([], src, options, zlib);
    NoParts();
    NoneFlushed();
    assert [] + src == src && [] + [Part(src, Finish)] == [Part(src, Finish)];
  }

  /** Any data, compressed with any options in one piece, decompresses to the data whenever the output buffer is large
      enough. */
  method RoundTrip(src: seq<Byte>, options: Options, room: nat)
    returns (bytes: seq<Byte>, out: array<Byte>, status: InflateBlock.Status, size: nat)
    ensures out.Length == room && size <= room
    ensures status == InflateBlock.Done <==> |src| <= room
    ensures out[..size] <= src && (status == InflateBlock.Done <==> out[..size] == src)
    ensures status != InflateBlock.Done ==> status == InflateBlock.HasMoreOutput && size == room
  {
    hide *;
    ghost var flushed, ps, adler, tokens, turns;
    bytes, flushed, ps, adler, tokens, turns := CompressAll(src, options, false);
    out, status, size := ReadBack(bytes, room, flushed, ps, adler, tokens, src);
  }

  /** tinfl_decompress_mem_to_mem on what has been handed out. */
  method ReadBack(bytes: seq<Byte>, room: nat, ghost flushed: seq<bool>, ghost ps: seq<Piece>, ghost adler: nat,
                  ghost tokens: seq<Token>, ghost data: seq<Byte>)
    returns (out: array<Byte>, status: InflateBlock.Status, size: nat)
    requires Compressed(bytes, false, flushed, ps, adler, tokens, data)
    ensures out.Length == room && size <= room
    ensures status == InflateBlock.Done <==> |data| <= room
    ensures out[..size] <= data && (status == InflateBlock.Done <==> out[..size] == data)
    ensures status != InflateBlock.Done ==> status == InflateBlock.HasMoreOutput && size == room
  {
    hide *;
    ghost var pad := CanBeRead(bytes, false, flushed, ps, adler, tokens, data);
    ghost var tail := [Field(0, pad)] + ByteFields(Trailer(false, adler));
    assert [] + (Stream(ps, 0) + tail) == Stream(ps, 0) + tail;
    BytesAreReading(bytes, ps, tail);
    out := new Byte[room];
    var bitBuf;
    status, bitBuf, size := Inflate(InputOf(bytes), out, ps, Input(Val(tail), Len(tail)));
    AllRead(status, data, Played(ps, []), room, out[..size]);
  }

  lemma AllRead(status: InflateBlock.Status, data: seq<Byte>, all: seq<Byte>, room: nat, o: seq<Byte>)
    requires InflateBlock.Outcome(status, Some(data), all, room, o)
    ensures status == InflateBlock.Done <==> |data| <= room
    ensures o <= data && (status == InflateBlock.Done <==> o == data)
    ensures status != InflateBlock.Done ==> status == InflateBlock.HasMoreOutput && |o| == room
  {
  }

  /** tinfl_decompress_mem_to_mem with a zlib header on what has been handed out, with no header but the first. */
  method ReadZlibBack(bytes: seq<Byte>, room: nat, ghost flushed: seq<bool>, ghost ps: seq<Piece>, ghost adler: nat,
                      ghost tokens: seq<Token>, ghost data: seq<Byte>)
    returns (out: array<Byte>, status: ZlibStatus, size: nat)
    requires Compressed(bytes, true, flushed, ps, adler, tokens, data) && Flushes(flushed) <= 0x1_0000_0000
    ensures out.Length == room && size <= room
    ensures status == Inflated(InflateBlock.Done) <==> |data| <= room
    ensures out[..size] <= data && (status == Inflated(InflateBlock.Done) <==> out[..size] == data)
    ensures status != Inflated(InflateBlock.Done) ==> status == Inflated(InflateBlock.HasMoreOutput) && size == room
  {
    BlockNumbersIs();
    hide *;
    ghost var t := BigEndian(adler);
    TrailerIs(true, adler);
    ghost var pad := CanBeRead(bytes, true, flushed, ps, adler, tokens, data);
    BigEndianBack(adler);
    assert t[..4] == t;
    ZeroFits(pad);
    HeaderIsRead(bytes, Stream(ps, 0) + ([Field(0, pad)] + ByteFields(t)));
    IsBody(bytes[2..], ps, 0, pad, t);
    PlaysIs(ps, room);
    out := new Byte[room];
    status, size := InflateZlib(bytes, out, ps, 0, pad, t);
    TowardsIs(ps, []);
    MinIs(|data|, room);
  }

  /** Any number of calls with any flushes in between, then one that finishes. After that the code takes no other. */
  method CompressParts(parts: seq<Part>, last: seq<Byte>, options: Options, zlib: bool)
    returns (bytes: seq<Byte>, ghost flushed: seq<bool>, ghost ps: seq<Piece>, ghost adler: nat,
             ghost tokens: seq<Token>, ghost turns: seq<Turn>)
    requires forall i :: 0 <= i < |parts| ==> parts[i].flush != Finish
    ensures Compressed(bytes, zlib, flushed, ps, adler, tokens, Joined(parts) + last)
    ensures ParsedBy(options, parts + [Part(last, Finish)], turns, tokens)
    ensures 8 * |bytes| <= 11 * |Joined(parts) + last| + 2358 * Flushes(flushed)
    ensures parts == [] && |last| <= 31 * 1024 ==> 8 * |bytes| <= 8 * |last| + 49 + if zlib then 48 else 0
    ensures Flushes(flushed) <= |Joined(parts) + last| / 31745 + Asked(parts) + 1
  {
    hide *;
    var c := new Compressor(options.greedy, options.rleMatches, options.rawBlocks, options.staticBlocks,
                            options.filterMatches, options.nondeterministic, MaxProbes(options.probes), true, zlib);
    var used, stopped;
    NoParts();
    NoneFlushed();
    ghost var all := parts + [Part(last, Finish)];
    NoTurnsYet(options, all);
    assert c.sink.flushed == [] && c.base == 0;
    ParsingIs(options);
    assert parts[..0] == [];
    for i := 0 to |parts|
      invariant c.Valid() && c.data == Joined(parts[..i])
      invariant c.adler32 < 0x1_0000_0000 && (zlib ==> c.adler32 == Adler32.Checksum(1, Joined(parts[..i])))
      invariant 31745 * Flushes(c.sink.flushed) <= TotalSize(c.closed) + 31745 * Asked(parts[..i])
      invariant InCalls(options, all, i, c.turns) && c.base == LastReset(all[..i])
      invariant (!options.nondeterministic ==> Empty(c.start)) && (i == 0 ==> c.sink.flushed == [] && c.base == 0)
    {
      OnePartMore(parts, i);
      var src := parts[i].data;
      ghost var before, start, base := c.turns, c.start, c.base;
      used, stopped := c.Compress(src, parts[i].flush);
      assert src[..used] == src;
      assert all[..i + 1] == parts[..i + 1] && all[i] == parts[i];
      OneCallMoreSeen(options, all, i, before, c.turns, start, base);
      OneResetMore(all, i);
    }
    assert parts[..|parts|] == parts;
    OneCallMore(Joined(parts), last);
    ghost var before, start, base := c.turns, c.start, c.base;
    used, stopped := c.Compress(last, Finish);
    assert last[..used] == last;
    bytes, flushed, ps, adler, tokens := c.sink.bytes, c.sink.flushed, c.sink.pieces, c.adler32, c.closed;
    turns := c.turns;
    AllParts(parts, last);
    assert all[..|parts| + 1] == all;
    OneCallMoreSeen(options, all, |parts|, before, turns, start, base);
    IsParsedBy(options, all, turns, c.saved, tokens);
    SpentIs(bytes, c.sink.out.bitsIn, tokens, flushed);
    IsCompressed(bytes, zlib, c.sink.blockIndex, flushed, ps, adler, tokens, Joined(parts) + last);
    BlockCount(Flushes(flushed), |Joined(parts) + last|, Asked(parts) + 1);
  }

  lemma ParsingIs(o: Options)
    ensures ParsingOf(o)
            == Parsing(o.greedy || o.rleMatches, o.rleMatches, o.rawBlocks, o.filterMatches, MaxProbes(o.probes))
  {
  }

  lemma AllParts(parts: seq<Part>, last: seq<Byte>)
    ensures Joined(parts + [Part(last, Finish)]) == Joined(parts) + last
  {
    assert (parts + [Part(last, Finish)])[..|parts|] == parts;
  }

  lemma IsParsedBy(o: Options, parts: seq<Part>, turns: seq<Turn>, s: Saved, tokens: seq<Token>)
    requires Traced(ParsingOf(o), Joined(parts), turns, |Joined(parts)|, s, tokens) && s.len == 0
    requires InCalls(o, parts, |parts|, turns)
    ensures ParsedBy(o, parts, turns, tokens)
  {
    hide Trace, TokensOf, After, InCalls, Joined, ParsingOf;
  }

  lemma SpentIs(bytes: seq<Byte>, bits: nat, tokens: seq<Token>, flushed: seq<bool>)
    requires Spent(bytes, bits, tokens, flushed)
    ensures 8 * |bytes| <= 11 * TotalSize(tokens) + 2358 * Flushes(flushed)
  {
  }

  lemma BlockCount(blocks: nat, size: nat, asked: nat)
    requires 31745 * blocks <= size + 31745 * asked
    ensures blocks <= size / 31745 + asked
  {
  }

  /** Whatever the calls and flushes, what was handed out decompresses to all the data. */
  method FlushedRoundTrip(parts: seq<Part>, last: seq<Byte>, options: Options, room: nat)
    returns (bytes: seq<Byte>, out: array<Byte>, status: InflateBlock.Status, size: nat)
    requires forall i :: 0 <= i < |parts| ==> parts[i].flush != Finish
    ensures out.Length == room && size <= room
    ensures status == InflateBlock.Done <==> |Joined(parts) + last| <= room
    ensures out[..size] <= Joined(parts) + last
            && (status == InflateBlock.Done <==> out[..size] == Joined(parts) + last)
    ensures status != InflateBlock.Done ==> status == InflateBlock.HasMoreOutput && size == room
  {
    hide *;
    ghost var flushed, ps, adler, tokens, turns;
    bytes, flushed, ps, adler, tokens, turns := CompressParts(parts, last, options, false);
    out, status, size := ReadBack(bytes, room, flushed, ps, adler, tokens, Joined(parts) + last);
  }

  /** The same with the zlib header and the checksum, if the flushes that were asked for and those that the amount of
      data leads to make at most 2^32 blocks; with more there is a second header (SecondHeader). */
  method FlushedZlibRoundTrip(parts: seq<Part>, last: seq<Byte>, options: Options, room: nat)
    returns (bytes: seq<Byte>, out: array<Byte>, status: ZlibStatus, size: nat)
    requires forall i :: 0 <= i < |parts| ==> parts[i].flush != Finish
    requires |Joined(parts) + last| / 31745 + Asked(parts) + 1 <= 0x1_0000_0000
    ensures out.Length == room && size <= room
    ensures status == Inflated(InflateBlock.Done) <==> |Joined(parts) + last| <= room
    ensures out[..size] <= Joined(parts) + last
            && (status == Inflated(InflateBlock.Done) <==> out[..size] == Joined(parts) + last)
    ensures status != Inflated(InflateBlock.Done) ==> status == Inflated(InflateBlock.HasMoreOutput) && size == room
  {
    hide *;
    ghost var flushed, ps, adler, tokens, turns;
    bytes, flushed, ps, adler, tokens, turns := CompressParts(parts, last, options, true);
    out, status, size := ReadZlibBack(bytes, room, flushed, ps, adler, tokens, Joined(parts) + last);
  }

  /** One call with the zlib header and the checksum: what mz_compress2 does not refuse for its length comes back whole,
      and passes the checks on header and checksum. */
  method ZlibRoundTrip(src: seq<Byte>, options: Options, room: nat)
    returns (bytes: Option<seq<Byte>>, out: array<Byte>, status: ZlibStatus, size: nat)
    ensures out.Length == room && size <= room
    ensures bytes == None <==> |src| > 0xFFFF_FFFF
    ensures bytes.Some? ==>
              && (status == Inflated(InflateBlock.Done) <==> |src| <= room)
              && out[..size] <= src && (status == Inflated(InflateBlock.Done) <==> out[..size] == src)
              && (status != Inflated(InflateBlock.Done) ==>
                  status == Inflated(InflateBlock.HasMoreOutput) && size == room)
  {
    hide *;
    if |src| > 0xFFFF_FFFF {
      out := new Byte[room];
      return None, out, CannotMakeProgress, 0;
    }
    ghost var flushed, ps, adler, tokens, turns;
    var b;
    b, flushed, ps, adler, tokens, turns := CompressAll(src, options, true);
    bytes := Some(b);
    out, status, size := ReadZlibBack(b, room, flushed, ps, adler, tokens, src);
  }

  lemma OneCallMore(a: seq<Byte>, b: seq<Byte>)
    ensures Adler32.Checksum(1, a + b) == Adler32.Checksum(Adler32.Checksum(1, a), b)
  {
    Adler32.ChecksumAppend(1, a, b);
  }

  lemma NoneFlushed()
    ensures Flushes([]) == 0 && TotalSize([]) == 0 && Asked([]) == 0 && Adler32.Checksum(1, []) == 1
  {
    Adler32.NothingChecked(1);
  }

  lemma CanBeRead(bytes: seq<Byte>, zlib: bool, flushed: seq<bool>, ps: seq<Piece>, adler: nat, tokens: seq<Token>,
                  data: seq<Byte>)
    returns (pad: nat)
    requires Compressed(bytes, zlib, flushed, ps, adler, tokens, data) && (zlib ==> Flushes(flushed) <= 0x1_0000_0000)
    ensures adler < 0x1_0000_0000 && (zlib ==> adler == Adler32.Checksum(1, data))
    ensures pad < 8 && AllGood(ps) && Ended(ps) && Play(ps, []) == Some(data)
    ensures Same(ByteFields(bytes),
                 HeadFields(zlib) + (Stream(ps, 0) + ([Field(0, pad)] + ByteFields(Trailer(zlib, adler)))))
  {
    BlockNumbersIs();
    hide SunkAll, Heads, Flushes, OneHead, BLOCK_NUMBERS, Stream, HeadFields, Same, Ended, Good;
    pad := SunkCanBeRead(bytes, Heads(zlib, flushed), ps, Trailer(zlib, adler), tokens, zlib);
  }

  lemma SunkCanBeRead(bytes: seq<Byte>, hs: seq<bool>, ps: seq<Piece>, trailer: seq<Byte>, tokens: seq<Token>,
                      zlib: bool)
    returns (pad: nat)
    requires SunkAll(bytes, hs, ps, trailer, tokens) && OneHead(hs, zlib)
    ensures pad < 8 && AllGood(ps) && Ended(ps) && Play(ps, []) == Expand(tokens, [])
    ensures Same(ByteFields(bytes), HeadFields(zlib) + (Stream(ps, 0) + ([Field(0, pad)] + ByteFields(trailer))))
  {
    pad := SunkPad(bytes, hs, ps, trailer, tokens);
    HeadsAre(hs, zlib);
    hide *;
    FramedIsStream(hs, ps, zlib);
    var h, s, p, t := HeadFields(zlib), Stream(ps, 0), [Field(0, pad)], ByteFields(trailer);
    DynamicHeader.Regroup(h, s, p);
    DynamicHeader.Regroup(h, s + p, t);
    DynamicHeader.Regroup(s, p, t);
  }

  lemma SunkPad(bytes: seq<Byte>, hs: seq<bool>, ps: seq<Piece>, trailer: seq<Byte>, tokens: seq<Token>)
    returns (pad: nat)
    requires SunkAll(bytes, hs, ps, trailer, tokens)
    ensures AllGood(ps) && |hs| == |ps| > 0 && Ended(ps) && Play(ps, []) == Expand(tokens, [])
    ensures pad < 8 && Same(ByteFields(bytes), Framed(hs, ps) + [Field(0, pad)] + ByteFields(trailer))
  {
    hide Framed, Same, Good;
    pad :| pad < 8 && Same(ByteFields(bytes), Framed(hs, ps) + [Field(0, pad)] + ByteFields(trailer));
  }

  lemma HeadsAre(hs: seq<bool>, zlib: bool)
    requires OneHead(hs, zlib)
    ensures hs != [] && hs[0] == zlib && forall i :: 0 < i < |hs| ==> !hs[i]
  {
  }
}
