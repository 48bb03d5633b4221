/** Where the compressor's blocks go: one stream, whatever the flushes were. */
module BlockSink {
  // Each flush fills the output buffer anew, behind the bits left over from the flush before, and hands its bytes out.

  import opened Bits
  import opened Wrappers
  import opened BitStream
  import opened BitOutput
  import opened Tokens
  import opened LzCodes
  import opened LzMatching
  import opened BitEmitter
  import opened Blocks
  import opened FlushBlock
  import opened BlockSize
  import opened Arith
  import DynamicHeader

  /** Tokens expand to as many bytes as they count. */
  lemma {:induction false} ExpandSize(ts: seq<Token>, o: seq<Byte>)
    requires Expand(ts, o).Some?
    ensures |Expand(ts, o).value| == |o| + TotalSize(ts)
    decreases |ts|
  {
    if ts != [] {
      assert ts == [ts[0]] + ts[1..];
      TotalSizeAppend([ts[0]], ts[1..]);
      assert [ts[0]][..0] == [] && TotalSize([ts[0]]) == TotalSize([ts[0]][..0]) + Size(ts[0]);
      match ts[0]
      case Literal(lit) => ExpandSize(ts[1..], o + [lit]);
      case Match(length, dist) => ExpandSize(ts[1..], Copy(o, dist, length));
    }
  }

  lemma {:induction false} TotalSizeBound(ts: seq<Token>)
    requires AllRecordable(ts)
    ensures TotalSize(ts) <= 258 * |ts|
  {
    if ts != [] { TotalSizeBound(ts[..|ts| - 1]); }
  }

  /** The ring holds the data; the tokens account for all of it up to `done`, or up to one byte before that. */
  ghost predicate Recent(dict: seq<Byte>, data: seq<Byte>, done: nat, ahead: nat, lookaheadPos: nat, dictSize: nat,
                         closed: seq<Token>, ts: seq<Token>) {
    && Window(dict, data) && |data| == done + ahead && lookaheadPos == done % 0x1_0000_0000 && dictSize + ahead <= 32768
    && Expand(closed + ts, []).Some? && Expand(closed + ts, []).value <= data
    && |Expand(closed + ts, []).value| <= done <= |Expand(closed + ts, []).value| + 1
  }

  /** What the block's tokens stand for: the data behind that of the closed blocks. */
  lemma BlockBytes(closed: seq<Token>, ts: seq<Token>) returns (before: seq<Byte>, bytes: seq<Byte>)
    requires Expand(closed, []).Some? && Expand(closed + ts, []).Some?
    ensures before == Expand(closed, []).value && Expand(ts, before) == Expand(closed + ts, []) == Some(before + bytes)
    ensures |before| == TotalSize(closed) && |bytes| == TotalSize(ts)
  {
    before := Expand(closed, []).value;
    ExpandAppend(closed, ts, []);
    ExpandGrows(ts, before);
    var after := Expand(ts, before).value;
    bytes := after[|before|..];
    assert before + bytes == after;
    ExpandSize(closed, []);
    ExpandSize(ts, before);
  }

  /** The 32-bit distance from the block's start is the true one. */
  lemma BlockStart(done: nat, start: nat, lookaheadPos: nat, dictPos: nat)
    requires start <= done < start + 0x1_0000_0000 && lookaheadPos == done % 0x1_0000_0000
             && dictPos == start % 0x1_0000_0000
    ensures (lookaheadPos - dictPos) % 0x1_0000_0000 == done - start
  {
    var q, r := done / 0x1_0000_0000, start / 0x1_0000_0000;
    assert done - start == (q - r) * 0x1_0000_0000 + (lookaheadPos - dictPos);
  }

  lemma RingIndex(start: nat, dictPos: nat, i: nat)
    requires dictPos == start % 0x1_0000_0000
    ensures (dictPos + i) % 32768 == (start + i) % 32768
  {
    var q := start / 0x1_0000_0000;
    assert start + i == dictPos + i + (q * 131072) * 32768;
    RingTurns(dictPos + i, q * 131072);
  }

  /** Whenever the code may fall back to a raw block, the ring still holds all of its bytes, and they are few. */
  lemma RawIsInRing(dict: seq<Byte>, data: seq<Byte>, done: nat, ahead: nat, lookaheadPos: nat, dictSize: nat,
                    closed: seq<Token>, ts: seq<Token>, before: seq<Byte>, bytes: seq<Byte>, dictPos: nat)
    requires Recent(dict, data, done, ahead, lookaheadPos, dictSize, closed, ts) && AllRecordable(ts) && |ts| < 0x1_0000
    requires Expand(closed + ts, []) == Some(before + bytes) && |bytes| == TotalSize(ts)
             && dictPos == |before| % 0x1_0000_0000
    requires (lookaheadPos - dictPos) % 0x1_0000_0000 <= dictSize
    ensures |bytes| <= 32768 && InRing(dict, dictPos, bytes)
  {
    hide *;
    TotalSizeBound(ts);
    RecentIs(dict, data, done, ahead, lookaheadPos, dictSize, closed, ts);
    BlockStart(done, |before|, lookaheadPos, dictPos);
    forall i: nat | i < |bytes| ensures dict[(dictPos + i) % 32768] == bytes[i] {
      RingIndex(|before|, dictPos, i);
      assert (before + bytes)[|before| + i] == data[|before| + i];
      RecentRead(dict, data, |before| + i);
    }
    IsInRing(dict, dictPos, bytes);
  }

  lemma RecentIs(dict: seq<Byte>, data: seq<Byte>, done: nat, ahead: nat, lookaheadPos: nat, dictSize: nat,
                 closed: seq<Token>, ts: seq<Token>)
    requires Recent(dict, data, done, ahead, lookaheadPos, dictSize, closed, ts)
    ensures Window(dict, data) && |data| == done + ahead && lookaheadPos == done % 0x1_0000_0000
            && dictSize + ahead <= 32768
    ensures Expand(closed + ts, []).Some? && Expand(closed + ts, []).value <= data && |dict| == 33025
    ensures |Expand(closed + ts, []).value| <= done <= |Expand(closed + ts, []).value| + 1
  {
  }

  lemma RecentRead(dict: seq<Byte>, data: seq<Byte>, a: nat)
    requires Window(dict, data) && a < |data| && |data| - 32768 <= a
    ensures |dict| == 33025 && dict[a % 32768] == data[a]
  {
    WindowRead(dict, data, a, 0);
  }

  lemma IsInRing(dict: seq<Byte>, dictPos: nat, bytes: seq<Byte>)
    requires |dict| >= 32768 && forall i: nat :: i < |bytes| ==> dict[(dictPos + i) % 32768] == bytes[i]
    ensures InRing(dict, dictPos, bytes)
  {
  }

  // ----- which blocks get a zlib header

  const BLOCK_NUMBERS := 0x1_0000_0000

  /** How many of the blocks of the stream were flushed; the others are markers. */
  ghost function Flushes(flushed: seq<bool>): (n: nat)
    ensures n <= |flushed|
  {
    if flushed == [] then 0 else Flushes(flushed[..|flushed| - 1]) + if flushed[|flushed| - 1] then 1 else 0
  }

  /** A header is put before a flushed block exactly if its number, counted in 32 bits, is 0. */
  ghost function Heads(zlib: bool, flushed: seq<bool>): (hs: seq<bool>)
    ensures |hs| == |flushed|
  {
    seq(|flushed|, i requires 0 <= i < |flushed| =>
      zlib && flushed[i] && Flushes(flushed[..i]) % BLOCK_NUMBERS == 0)
  }

  /** The 32-bit block number stands for the blocks flushed so far; the first block is one of them. */
  ghost predicate Numbered(blockIndex: nat, flushed: seq<bool>) {
    blockIndex == Flushes(flushed) % BLOCK_NUMBERS && (flushed != [] ==> flushed[0])
  }

  lemma FlushesSnoc(flushed: seq<bool>, b: bool)
    ensures Flushes(flushed + [b]) == Flushes(flushed) + if b then 1 else 0
  {
    assert (flushed + [b])[..|flushed|] == flushed;
  }

  lemma HeadsSnoc(zlib: bool, flushed: seq<bool>, b: bool)
    ensures Heads(zlib, flushed + [b]) == Heads(zlib, flushed) + [zlib && b && Flushes(flushed) % BLOCK_NUMBERS == 0]
  {
    var g := flushed + [b];
    forall i | 0 <= i < |g| ensures Heads(zlib, g)[i] == (zlib && g[i] && Flushes(flushed[..i]) % BLOCK_NUMBERS == 0) {
      assert g[..i] == flushed[..i];
    }
    assert flushed[..|flushed|] == flushed;
  }

  /** The next block gets its header by the test on the 32-bit number; a marker behind it gets none. */
  lemma NextNumber(zlib: bool, blockIndex: nat, flushed: seq<bool>, h: bool)
    requires Numbered(blockIndex, flushed) && h == (zlib && blockIndex == 0)
    ensures Numbered((blockIndex + 1) % BLOCK_NUMBERS, flushed + [true])
    ensures Numbered((blockIndex + 1) % BLOCK_NUMBERS, flushed + [true] + [false])
    ensures Heads(zlib, flushed + [true]) == Heads(zlib, flushed) + [h]
    ensures Heads(zlib, flushed + [true] + [false]) == Heads(zlib, flushed) + [h] + [false]
    ensures Flushes(flushed + [true] + [false]) == Flushes(flushed + [true]) == Flushes(flushed) + 1
  {
    hide *;
    NumberedIs(blockIndex, flushed);
    FlushesSnoc(flushed, true);
    FlushesSnoc(flushed + [true], false);
    HeadsSnoc(zlib, flushed, true);
    HeadsSnoc(zlib, flushed + [true], false);
    NextIndex(Flushes(flushed));
    NumberedIs((blockIndex + 1) % BLOCK_NUMBERS, flushed + [true]);
    NumberedIs((blockIndex + 1) % BLOCK_NUMBERS, flushed + [true] + [false]);
  }

  lemma NextIndex(n: nat)
    ensures (n % BLOCK_NUMBERS + 1) % BLOCK_NUMBERS == (n + 1) % BLOCK_NUMBERS && BLOCK_NUMBERS > 0
  {
  }

  lemma NumberedIs(blockIndex: nat, flushed: seq<bool>)
    ensures BLOCK_NUMBERS > 0
    ensures Numbered(blockIndex, flushed) <==>
            blockIndex == Flushes(flushed) % BLOCK_NUMBERS && (flushed != [] ==> flushed[0])
  {
    hide Flushes;
  }

  /** A header before the first block if there is one at all, and none before any other block. */
  ghost predicate OneHead(hs: seq<bool>, zlib: bool) {
    hs != [] && hs[0] == zlib && forall i :: 0 < i < |hs| ==> !hs[i]
  }

  lemma {:induction false} FlushesMono(flushed: seq<bool>, i: nat, j: nat)
    requires i <= j <= |flushed|
    ensures Flushes(flushed[..i]) <= Flushes(flushed[..j])
    decreases j
  {
    if i < j {
      FlushesMono(flushed, i, j - 1);
      FlushesStep(flushed, j - 1);
    }
  }

  lemma FlushesStep(flushed: seq<bool>, i: nat)
    requires i < |flushed|
    ensures Flushes(flushed[..i + 1]) == Flushes(flushed[..i]) + if flushed[i] then 1 else 0
  {
    assert flushed[..i + 1] == flushed[..i] + [flushed[i]];
    FlushesSnoc(flushed[..i], flushed[i]);
  }

  /** The flushed block with a given number. */
  lemma {:induction false} FlushNumber(flushed: seq<bool>, k: nat) returns (i: nat)
    requires k < Flushes(flushed)
    ensures i < |flushed| && flushed[i] && Flushes(flushed[..i]) == k
    decreases |flushed|
  {
    var n := |flushed| - 1;
    if flushed[n] && Flushes(flushed[..n]) == k {
      i := n;
    } else {
      i := FlushNumber(flushed[..n], k);
      assert flushed[..n][..i] == flushed[..i];
    }
  }

  lemma HeadAt(zlib: bool, flushed: seq<bool>, i: nat)
    requires i < |flushed|
    ensures Heads(zlib, flushed)[i] == (zlib && flushed[i] && Flushes(flushed[..i]) % BLOCK_NUMBERS == 0)
  {
    hide Flushes;
  }

  /** The flushed blocks behind the first one have the numbers from 1 on. */
  lemma NumberInside(flushed: seq<bool>, i: nat)
    requires 0 < i < |flushed| && flushed[0] && flushed[i]
    ensures 1 <= Flushes(flushed[..i]) < Flushes(flushed)
  {
    hide *;
    assert flushed[..0] == [] && flushed[..0 + 1] == flushed[..1] && flushed[..|flushed|] == flushed;
    FlushesStep(flushed, 0);
    FlushesMono(flushed, 1, i);
    FlushesStep(flushed, i);
    FlushesMono(flushed, i + 1, |flushed|);
  }

  /** The stream has one header, in front, exactly if it is no zlib stream or has at most 2^32 blocks. */
  lemma OneHeadExactly(zlib: bool, flushed: seq<bool>)
    requires flushed != [] && flushed[0]
    ensures OneHead(Heads(zlib, flushed), zlib) <==> (zlib ==> Flushes(flushed) <= BLOCK_NUMBERS)
  {
    NoneBefore(flushed);
    BlockNumbersIs();
    hide Heads, Flushes;
    HeadAt(zlib, flushed, 0);
    if zlib && Flushes(flushed) > BLOCK_NUMBERS {
      var i := FlushNumber(flushed, BLOCK_NUMBERS);
      HeadAt(zlib, flushed, i);
    } else {
      forall i | 0 < i < |flushed| ensures !Heads(zlib, flushed)[i] {
        HeadAt(zlib, flushed, i);
        if flushed[i] { NumberInside(flushed, i); }
      }
    }
  }

  lemma NoneBefore(flushed: seq<bool>)
    ensures Flushes(flushed[..0]) == 0
  {
  }

  /** The block behind the first 2^32 ones has a header again. */
  lemma SecondHeader(flushed: seq<bool>)
    requires flushed != [] && flushed[0] && Flushes(flushed) == BLOCK_NUMBERS
    ensures OneHead(Heads(true, flushed), true)
    ensures Heads(true, flushed + [true]) == Heads(true, flushed) + [true]
            && !OneHead(Heads(true, flushed + [true]), true)
  {
    hide Heads, Flushes;
    OneHeadExactly(true, flushed);
    HeadsSnoc(true, flushed, true);
    assert (Heads(true, flushed) + [true])[|flushed|];
  }

  lemma BlockNumbersIs()
    ensures BLOCK_NUMBERS == 0x1_0000_0000
  {
  }

  /** One more flushed block, and the empty raw block of a sync or full flush behind it. */
  ghost predicate Grown(fl: seq<bool>, ps: seq<Piece>, flush: Flush, fl': seq<bool>, ps': seq<Piece>) {
    && |ps'| == |ps| + (if flush == NoFlush || flush == Finish then 1 else 2) && ps'[..|ps|] == ps
    && fl' == fl + [true] + (if flush == NoFlush || flush == Finish then [] else [false])
    && (flush == NoFlush || flush == Finish || ps'[|ps| + 1] == Raw(false, []))
  }

  lemma IsGrown(fl: seq<bool>, ps: seq<Piece>, p: Piece, flush: Flush)
    ensures flush == NoFlush || flush == Finish ==> Grown(fl, ps, flush, fl + [true], ps + [p])
    ensures flush != NoFlush && flush != Finish ==>
            Grown(fl, ps, flush, fl + [true] + [false], ps + [p] + [Raw(false, [])])
  {
  }

  lemma SmallIs(p: Piece)
    requires SmallPiece(p)
    ensures !p.Rejected?
  {
  }

  /** A static block without tokens. */
  ghost predicate EmptyStatic(p: Piece, final: bool) {
    p.Coded? && Good(p) && p.final == final && p.form.Static? && p.ts == []
  }

  /** A block without tokens is static, unless raw blocks are asked for. */
  lemma SmallestBlock(p: Piece, ts: seq<Token>, total: nat, rawBlocks: bool, final: bool)
    requires SmallPiece(p) && Good(p) && p.final == final && total == TotalSize(ts) && (p.Coded? ==> p.ts == ts)
    requires (p.Raw? ==> rawBlocks || total > 0) && (p.Coded? && total < 48 ==> p.form.Static?)
    ensures ts == [] && !rawBlocks ==> EmptyStatic(p, final)
  {
  }

  /** What is handed out, and the bits left over, against the data: at most 11 bits for a byte, and what a block may
      have besides, header, marker and trailer included. */
  ghost predicate Spent(bytes: seq<Byte>, bits: nat, closed: seq<Token>, flushed: seq<bool>) {
    8 * |bytes| + bits <= 11 * TotalSize(closed) + 2358 * Flushes(flushed)
  }

  lemma SpentMore(bytes: seq<Byte>, bits: nat, closed: seq<Token>, fl: seq<bool>, bytes': seq<Byte>, bits': nat,
                  ts: seq<Token>, fl': seq<bool>)
    requires Spent(bytes, bits, closed, fl) && Flushes(fl') == Flushes(fl) + 1
    requires 8 * |bytes'| + bits' <= 8 * |bytes| + bits + 11 * TotalSize(ts) + 2358
    ensures Spent(bytes', bits', closed + ts, fl')
  {
    TotalSizeAppend(closed, ts);
  }

  lemma NothingSpent()
    ensures Spent([], 0, [], [])
  {
  }

  /** How the block of the tokens is to be written: as is chosen, from the first attempt with a code. */
  ghost predicate AsChosen(p: Piece, c: Piece, at: nat, ts: seq<Token>, canBeRaw: bool, rawBlocks: bool,
                         staticBlocks: bool, final: bool) {
    && Chosen(p, c, at, TotalSize(ts), canBeRaw, rawBlocks)
    && (!(rawBlocks && canBeRaw) ==> Attempt(c, final, ts, staticBlocks || TotalSize(ts) < 48))
  }

  /** How many bits a flush may add. */
  ghost function MostBits(head: bool, canBeRaw: bool, ts: seq<Token>, flush: Flush, trailer: seq<Byte>): nat {
    (if head then 16 else 0) + (if canBeRaw then 8 * TotalSize(ts) + 42 else 11 * TotalSize(ts) + 2300)
    + MarkerMost(flush, trailer)
  }

  class BlockSink {
    const out: Output
    const rawBlocks: bool
    const staticBlocks: bool
    /** Whether the callback that takes the bytes never fails. */
    const accepting: bool
    /** Whether there is a zlib header and trailer around the blocks. */
    const zlib: bool
    var bytes: seq<Byte>
    var lzDictPos: nat
    var blockIndex: nat
    ghost var flushed: seq<bool>
    ghost var pieces: seq<Piece>
    /** What the output side left of the bytes of the last flush; negative if the callback failed. */
    ghost var answer: int

    /** What has been handed out stands for the closed tokens. */
    ghost predicate Valid(closed: seq<Token>)
      reads this, out
    {
      && OutBuffer(out) && lzDictPos == TotalSize(closed) % 0x1_0000_0000 && Numbered(blockIndex, flushed)
      && Sunk(bytes, out.bitBuffer, out.bitsIn, Heads(zlib, flushed), pieces, closed)
      && Spent(bytes, out.bitsIn, closed, flushed)
    }

    constructor (rawBlocks: bool, staticBlocks: bool, accepting: bool, zlib: bool)
      ensures Valid([]) && bytes == [] && flushed == [] && pieces == [] && answer == 0 && fresh(out) && fresh(out.buf)
      ensures this.rawBlocks == rawBlocks && this.staticBlocks == staticBlocks && this.accepting == accepting
              && this.zlib == zlib
    {
      var buf := new Byte[OUT_BUF_SIZE];
      out := new Output(buf, OUT_BUF_SIZE - 16);
      this.rawBlocks, this.staticBlocks, this.accepting, this.zlib := rawBlocks, staticBlocks, accepting, zlib;
      bytes, lzDictPos, blockIndex, flushed, pieces, answer := [], 0, 0, [], [], 0;
      new;
      NothingSunk();
      NothingSpent();
    }

    /** The output buffer is empty again; the bits left over are what it starts from, and the header if it is due. */
    method Begin(head: bool, ghost closed: seq<Token>)
      requires Valid(closed)
      modifies out`pos, out`kept, out`bitBuffer, out`bitsIn, out.buf
      ensures OutBuffer(out) && old(out.bitsIn) < 8
      ensures var fs := [Field(old(out.bitBuffer), old(out.bitsIn))] + HeadFields(head);
              out.Valid(fs) && Len(fs) == old(out.bitsIn) + if head then 16 else 0
    {
      hide *;
      SinkIs(closed);
      SunkIs(bytes, out.bitBuffer, out.bitsIn, Heads(zlib, flushed), pieces, closed);
      StartOver();
      ghost var f := [Field(out.bitBuffer, out.bitsIn)];
      HeadLen(head);
      Append(f, HeadFields(head));
      Single(Field(out.bitBuffer, out.bitsIn));
      PutHead(out, head, f);
    }

    method StartOver()
      requires OutBuffer(out) && out.bitsIn < 8 && out.bitBuffer < Pow2(out.bitsIn)
      modifies out`pos, out`kept
      ensures out.Valid([Field(out.bitBuffer, out.bitsIn)])
    {
      out.pos, out.kept := 0, [];
      PendingStart(out.buf[..][..0], out.bitBuffer, out.bitsIn);
    }

    /** tdefl_flush_block: the block is closed and written, its marker behind it; the bytes are handed out, and the
        token buffer is empty again. `remaining` is what is left for the output side to do, negative if the callback
        failed. */
    method Flush(codes: LzCodeBuffer, dict: array<Byte>, lookaheadPos: nat, dictSize: nat, flush: Flush, adler: nat,
                 ghost closed: seq<Token>, ghost ts: seq<Token>, ghost data: seq<Byte>, ghost done: nat,
                 ghost ahead: nat)
      returns (remaining: int, ghost c: Piece)
      requires Valid(closed) && codes.Valid(ts)
               && Recent(dict[..], data, done, ahead, lookaheadPos, dictSize, closed, ts)
      requires dict != out.buf && out.buf != codes.buf && dict != codes.buf && adler < 0x1_0000_0000
      modifies this`bytes, this`lzDictPos, this`blockIndex, this`flushed, this`pieces, this`answer
      modifies out, out.buf, codes, codes.buf, codes.litCount, codes.distCount
      ensures codes.Valid([]) && codes.next == 1
      ensures flush != Finish ==> Valid(closed + ts)
      ensures flush == Finish ==> SunkAll(bytes, Heads(zlib, flushed), pieces, Trailer(zlib, adler), closed + ts)
      ensures Numbered(blockIndex, flushed) && Grown(old(flushed), old(pieces), flush, flushed, pieces)
      ensures ts == [] && !rawBlocks ==> EmptyStatic(pieces[|old(pieces)|], flush == Finish)
      ensures out.pos < out.end && remaining == answer && (accepting ==> answer == 0)
      ensures old(bytes) <= bytes && dict[..] == old(dict[..])
      ensures Spent(bytes, out.bitsIn, closed + ts, flushed) && |pieces| > |old(pieces)|
      ensures var head, canBeRaw := zlib && old(blockIndex) == 0,
                                    (lookaheadPos - old(lzDictPos)) % 0x1_0000_0000 <= dictSize;
              && AsChosen(pieces[|old(pieces)|], c, old(out.bitsIn) + (if head then 16 else 0), ts, canBeRaw, rawBlocks,
                        staticBlocks, flush == Finish)
              && 8 * |bytes| + out.bitsIn <= 8 * |old(bytes)| + old(out.bitsIn)
                                             + MostBits(head, canBeRaw, ts, flush, Trailer(zlib, adler))
    {
      hide *;
      SinkIs(closed);
      codes.Opened(ts);
      var total := codes.totalLzBytes;
      c := PutOut(codes, dict, lookaheadPos, dictSize, flush, adler, closed, ts, data, done, ahead);
      NextDictPos(closed, ts, lzDictPos);
      lzDictPos := (lzDictPos + total) % 0x1_0000_0000;
      codes.Reset();
      remaining := *;
      if accepting { remaining := 0; }
      answer := remaining;
      if flush != Finish { IsSink(closed + ts); }
    }

    /** The block and what comes behind it are handed out. */
    method PutOut(codes: LzCodeBuffer, dict: array<Byte>, lookaheadPos: nat, dictSize: nat, flush: Flush, adler: nat,
                  ghost closed: seq<Token>, ghost ts: seq<Token>, ghost data: seq<Byte>, ghost done: nat,
                  ghost ahead: nat)
      returns (ghost c: Piece)
      requires Valid(closed) && codes.Valid(ts)
               && Recent(dict[..], data, done, ahead, lookaheadPos, dictSize, closed, ts)
      requires dict != out.buf && out.buf != codes.buf && dict != codes.buf && adler < 0x1_0000_0000
      modifies this`bytes, this`blockIndex, this`flushed, this`pieces
      modifies out, out.buf, codes`next, codes.buf, codes.litCount
      ensures OutBuffer(out) && out.pos < out.end && old(bytes) <= bytes && dict[..] == old(dict[..])
      ensures flush != Finish ==> Sunk(bytes, out.bitBuffer, out.bitsIn, Heads(zlib, flushed), pieces, closed + ts)
      ensures flush == Finish ==> SunkAll(bytes, Heads(zlib, flushed), pieces, Trailer(zlib, adler), closed + ts)
      ensures Numbered(blockIndex, flushed) && Grown(old(flushed), old(pieces), flush, flushed, pieces)
      ensures |pieces| > |old(pieces)| && Spent(bytes, out.bitsIn, closed + ts, flushed)
      ensures ts == [] && !rawBlocks ==> EmptyStatic(pieces[|old(pieces)|], flush == Finish)
      ensures var head, canBeRaw := zlib && old(blockIndex) == 0,
                                    (lookaheadPos - lzDictPos) % 0x1_0000_0000 <= dictSize;
              && AsChosen(pieces[|old(pieces)|], c, old(out.bitsIn) + (if head then 16 else 0), ts, canBeRaw, rawBlocks,
                        staticBlocks, flush == Finish)
              && 8 * |bytes| + out.bitsIn <= 8 * |old(bytes)| + old(out.bitsIn)
                                             + MostBits(head, canBeRaw, ts, flush, Trailer(zlib, adler))
    {
      hide *;
      SinkIs(closed);
      ghost var bb, n := out.bitBuffer, out.bitsIn;
      ghost var head, canBeRaw := zlib && blockIndex == 0, (lookaheadPos - lzDictPos) % 0x1_0000_0000 <= dictSize;
      ghost var p, before, raw;
      p, c, before, raw := PutBlock(codes, dict, lookaheadPos, dictSize, flush == Finish, closed, ts, data, done,
                                    ahead);
      EndFlush(flush, adler, head, p, closed, ts, before, raw, bb, n);
      MostBitsIs(head, canBeRaw, ts, flush, Trailer(zlib, adler));
      GrownBy(old(flushed), old(pieces), flush, flushed, pieces);
      SpentMore(old(bytes), n, closed, old(flushed), bytes, out.bitsIn, ts, flushed);
    }

    /** The header if it is due, and the block. */
    method PutBlock(codes: LzCodeBuffer, dict: array<Byte>, lookaheadPos: nat, dictSize: nat, final: bool,
                    ghost closed: seq<Token>, ghost ts: seq<Token>, ghost data: seq<Byte>, ghost done: nat,
                    ghost ahead: nat)
      returns (ghost p: Piece, ghost c: Piece, ghost before: seq<Byte>, ghost raw: seq<Byte>)
      requires Valid(closed) && codes.Valid(ts)
               && Recent(dict[..], data, done, ahead, lookaheadPos, dictSize, closed, ts)
      requires dict != out.buf && out.buf != codes.buf && dict != codes.buf
      modifies out, out.buf, codes`next, codes.buf, codes.litCount
      ensures OutBuffer(out) && Good(p) && SmallPiece(p) && p.final == final && old(out.bitsIn) < 8
              && (p.Coded? ==> p.ts == ts) && (p.Raw? ==> p.bytes == raw)
      ensures Expand(closed, []) == Some(before) && Expand(ts, before) == Expand(closed + ts, []) == Some(before + raw)
      ensures ts == [] && !rawBlocks ==> EmptyStatic(p, final)
      ensures var n, head, canBeRaw := old(out.bitsIn), zlib && blockIndex == 0,
                                       (lookaheadPos - lzDictPos) % 0x1_0000_0000 <= dictSize;
              && out.Valid([Field(old(out.bitBuffer), n)] + (HeadFields(head) + PieceFields(p, n)))
              && AsChosen(p, c, n + (if head then 16 else 0), ts, canBeRaw, rawBlocks, staticBlocks, final)
              && Len(PieceFields(p, n)) <= if canBeRaw then 8 * TotalSize(ts) + 42 else 11 * TotalSize(ts) + 2300
      ensures dict[..] == old(dict[..])
    {
      hide *;
      ghost var ring := dict[..];
      codes.Opened(ts);
      var canBeRaw;
      canBeRaw, before, raw := CanBeRaw(codes, dict, lookaheadPos, dictSize, closed, ts, data, done, ahead);
      ghost var bb, n := out.bitBuffer, out.bitsIn;
      var head := zlib && blockIndex == 0;
      ghost var fs := [Field(bb, n)] + HeadFields(head);
      Begin(head, closed);
      assert dict[..] == ring;
      p, c := WriteBlock(codes, out, dict, lzDictPos, canBeRaw, rawBlocks, staticBlocks, final, ts, raw, fs);
      SmallestBlock(p, ts, codes.totalLzBytes, rawBlocks, final);
      Sized(p, c, fs, ts, codes.totalLzBytes, canBeRaw, final, raw);
      HeadShift(p, bb, n, head);
    }

    /** The test for a raw block: where it allows one, the ring still holds the block's bytes. */
    method CanBeRaw(codes: LzCodeBuffer, dict: array<Byte>, lookaheadPos: nat, dictSize: nat,
                    ghost closed: seq<Token>, ghost ts: seq<Token>, ghost data: seq<Byte>, ghost done: nat,
                    ghost ahead: nat)
      returns (canBeRaw: bool, ghost before: seq<Byte>, ghost raw: seq<Byte>)
      requires Valid(closed) && codes.Valid(ts)
               && Recent(dict[..], data, done, ahead, lookaheadPos, dictSize, closed, ts)
      ensures Expand(closed, []) == Some(before)
              && Expand(ts, before) == Expand(closed + ts, []) == Some(before + raw) && dict.Length == 33025
      ensures canBeRaw == ((lookaheadPos - lzDictPos) % 0x1_0000_0000 <= dictSize)
      ensures canBeRaw ==> |raw| == codes.totalLzBytes <= 32768 && InRing(dict[..], lzDictPos, raw)
    {
      hide *;
      TokenFacts(codes, ts);
      SinkIs(closed);
      RecentIs(dict[..], data, done, ahead, lookaheadPos, dictSize, closed, ts);
      before, raw := BlockBytes(closed, ts);
      codes.Opened(ts);
      canBeRaw := (lookaheadPos - lzDictPos) % 0x1_0000_0000 <= dictSize;
      if canBeRaw {
        RawIsInRing(dict[..], data, done, ahead, lookaheadPos, dictSize, closed, ts, before, raw, lzDictPos);
      }
    }

    /** What the block that was written is, and how long at most. */
    lemma Sized(p: Piece, c: Piece, fs: seq<Field>, ts: seq<Token>, total: nat, canBeRaw: bool, final: bool,
                raw: seq<Byte>)
      requires Good(p) && SmallPiece(p) && total == TotalSize(ts) && OutBuffer(out) && Len(fs) < 24
      requires (p.Coded? ==> p.ts == ts) && (p.Raw? ==> canBeRaw && p.bytes == raw) && (canBeRaw ==> |raw| == total)
      requires !(rawBlocks && canBeRaw) ==> Attempt(c, final, ts, staticBlocks || total < 48)
      requires (rawBlocks && canBeRaw) || (Good(c) && Len(fs + PieceFields(c, Len(fs))) / 8 < out.end) ==>
                 Chosen(p, c, Len(fs), total, canBeRaw, rawBlocks)
      ensures AsChosen(p, c, Len(fs), ts, canBeRaw, rawBlocks, staticBlocks, final)
      ensures Len(PieceFields(p, Len(fs))) <= if canBeRaw then 8 * TotalSize(ts) + 42 else 11 * TotalSize(ts) + 2300
    {
      hide *;
      if !(rawBlocks && canBeRaw) { AttemptFits(c, fs, final, ts, staticBlocks || total < 48, out); }
      ChosenSize(p, c, Len(fs), total, canBeRaw, rawBlocks, final, staticBlocks, ts);
      IsAsChosen(p, c, Len(fs), ts, canBeRaw, rawBlocks, staticBlocks, final);
    }

    lemma IsSink(closed: seq<Token>)
      requires OutBuffer(out) && lzDictPos == TotalSize(closed) % 0x1_0000_0000
               && Numbered(blockIndex, flushed)
      requires Sunk(bytes, out.bitBuffer, out.bitsIn, Heads(zlib, flushed), pieces, closed)
               && Spent(bytes, out.bitsIn, closed, flushed)
      ensures Valid(closed)
    {
    }

    lemma NextDictPos(closed: seq<Token>, ts: seq<Token>, pos: nat)
      requires pos == TotalSize(closed) % 0x1_0000_0000
      ensures (pos + TotalSize(ts)) % 0x1_0000_0000 == TotalSize(closed + ts) % 0x1_0000_0000
    {
      TotalSizeAppend(closed, ts);
    }

    /** Behind the block: the marker, and the bytes are handed out. All of it fits, as the code asserts. */
    method EndFlush(flush: Flush, adler: nat, ghost head: bool, ghost p: Piece, ghost closed: seq<Token>,
                    ghost ts: seq<Token>, ghost before: seq<Byte>, ghost raw: seq<Byte>, ghost bb: nat, ghost n: nat)
      requires Sunk(bytes, bb, n, Heads(zlib, flushed), pieces, closed) && OutBuffer(out) && Good(p) && SmallPiece(p)
               && p.final == (flush == Finish)
      requires Numbered(blockIndex, flushed) && head == (zlib && blockIndex == 0) && adler < 0x1_0000_0000
      requires n < 8 && (p.Coded? ==> p.ts == ts) && (p.Raw? ==> p.bytes == raw)
      requires Expand(closed, []) == Some(before) && Expand(ts, before) == Expand(closed + ts, []) == Some(before + raw)
      requires out.Valid([Field(bb, n)] + (HeadFields(head) + PieceFields(p, n)))
      modifies this`bytes, this`blockIndex, this`flushed, this`pieces, out`pos, out`bitBuffer, out`bitsIn, out.buf
      ensures flush != Finish ==> Sunk(bytes, out.bitBuffer, out.bitsIn, Heads(zlib, flushed), pieces, closed + ts)
      ensures flush == Finish ==> SunkAll(bytes, Heads(zlib, flushed), pieces, Trailer(zlib, adler), closed + ts)
      ensures Numbered(blockIndex, flushed) && Grown(old(flushed), old(pieces), flush, flushed, pieces)
      ensures pieces[|old(pieces)|] == p
      ensures old(bytes) <= bytes && out.pos < out.end
      ensures 8 * |bytes| + out.bitsIn <= 8 * |old(bytes)| + n + (if head then 16 else 0) + Len(PieceFields(p, n))
                                          + MarkerMost(flush, Trailer(zlib, adler))
    {
      PlayOneIs(p, before);
      BlockNumbersIs();
      hide *;
      ghost var t := Trailer(zlib, adler);
      ghost var fs := [Field(bb, n)] + (HeadFields(head) + PieceFields(p, n));
      PutMarker(out, flush, zlib, adler, fs);
      AllFits(out, flush, t, head, p, bb, n);
      var more := out.buf[..out.pos];
      SmallIs(p);
      FlushBits(more, out.bitBuffer, out.bitsIn, bb, n, head, p, flush, t);
      SunkNext(bytes, bb, n, Heads(zlib, flushed), pieces, closed, head, p, ts, flush, t, more, out.bitBuffer,
               out.bitsIn);
      NextNumber(zlib, blockIndex, flushed, head);
      IsGrown(flushed, pieces, p, flush);
      bytes := bytes + more;
      blockIndex := (blockIndex + 1) % 0x1_0000_0000;
      if flush == NoFlush || flush == Finish {
        flushed, pieces := flushed + [true], pieces + [p];
      } else {
        flushed, pieces := flushed + [true] + [false], pieces + [p] + [Raw(false, [])];
      }
    }

    /** Nothing has been flushed: nothing has been handed out, and no data is in closed blocks. */
    lemma NothingYet(closed: seq<Token>)
      requires Valid(closed) && flushed == []
      ensures bytes == [] && out.bitsIn == 0 && TotalSize(closed) == 0 && lzDictPos == 0 && blockIndex == 0
    {
      SettledLen(bytes, out.bitBuffer, out.bitsIn, []);
      ExpandSize(closed, []);
      assert |Heads(zlib, flushed)| == 0;
    }

    lemma SinkIs(closed: seq<Token>)
      requires Valid(closed)
      ensures OutBuffer(out) && lzDictPos == TotalSize(closed) % 0x1_0000_0000
              && Numbered(blockIndex, flushed)
      ensures Sunk(bytes, out.bitBuffer, out.bitsIn, Heads(zlib, flushed), pieces, closed) && Expand(closed, []).Some?
      ensures Spent(bytes, out.bitsIn, closed, flushed)
    {
    }
  }

  lemma NeverFlushed(blockIndex: nat, flushed: seq<bool>)
    requires Numbered(blockIndex, flushed) && Flushes(flushed) == 0
    ensures flushed == []
  {
    if flushed != [] { FirstIsFlushed(flushed); }
  }

  lemma FirstIsFlushed(flushed: seq<bool>)
    requires flushed != [] && flushed[0]
    ensures Flushes(flushed) >= 1
  {
    assert flushed[..|flushed|] == flushed && flushed[..0] == [];
    FlushesStep(flushed, 0);
    FlushesMono(flushed, 1, |flushed|);
  }

  /** How many bits a flush puts out. */
  lemma FlushBits(more: seq<Byte>, cc: nat, m: nat, bb: nat, n: nat, head: bool, p: Piece, flush: Flush, t: seq<Byte>)
    requires Good(p) && |t| <= 4
    requires var fs := [Field(bb, n)] + (HeadFields(head) + PieceFields(p, n));
             Settled(more, cc, m, fs + MarkerFields(flush, t, Len(fs)))
    ensures 8 * |more| + m <= n + (if head then 16 else 0) + Len(PieceFields(p, n)) + MarkerMost(flush, t)
  {
    hide *;
    var f, h, q := [Field(bb, n)], HeadFields(head), PieceFields(p, n);
    var fs := f + (h + q);
    SettledLen(more, cc, m, fs + MarkerFields(flush, t, Len(fs)));
    Append(fs, MarkerFields(flush, t, Len(fs)));
    Append(f, h + q);
    Append(h, q);
    HeadLen(head);
    Single(Field(bb, n));
    MarkerSize(flush, t, Len(fs));
  }

  lemma MostBitsIs(head: bool, canBeRaw: bool, ts: seq<Token>, flush: Flush, trailer: seq<Byte>)
    requires |trailer| <= 4
    ensures MostBits(head, canBeRaw, ts, flush, trailer)
            == (if head then 16 else 0) + (if canBeRaw then 8 * TotalSize(ts) + 42 else 11 * TotalSize(ts) + 2300)
               + MarkerMost(flush, trailer)
    ensures MostBits(head, canBeRaw, ts, flush, trailer) <= 11 * TotalSize(ts) + 2358
  {
    MarkerSize(flush, trailer, 0);
  }

  lemma IsAsChosen(p: Piece, c: Piece, at: nat, ts: seq<Token>, canBeRaw: bool, rawBlocks: bool, staticBlocks: bool,
                 final: bool)
    requires Chosen(p, c, at, TotalSize(ts), canBeRaw, rawBlocks)
    requires !(rawBlocks && canBeRaw) ==> Attempt(c, final, ts, staticBlocks || TotalSize(ts) < 48)
    ensures AsChosen(p, c, at, ts, canBeRaw, rawBlocks, staticBlocks, final)
  {
  }

  lemma GrownBy(fl: seq<bool>, ps: seq<Piece>, flush: Flush, fl': seq<bool>, ps': seq<Piece>)
    requires Grown(fl, ps, flush, fl', ps')
    ensures |ps| < |ps'| && Flushes(fl') == Flushes(fl) + 1
  {
    FlushesSnoc(fl, true);
    FlushesSnoc(fl + [true], false);
    assert fl + [true] + [] == fl + [true];
  }

  /** The code's assertion about the output buffer, and that nothing was dropped. */
  lemma AllFits(out: Output, flush: Flush, t: seq<Byte>, head: bool, p: Piece, bb: nat, n: nat)
    requires OutBuffer(out) && Good(p) && SmallPiece(p) && n < 8 && |t| <= 4
    requires var fs := [Field(bb, n)] + (HeadFields(head) + PieceFields(p, n));
             out.Valid(fs + MarkerFields(flush, t, Len(fs)))
    ensures out.pos < out.end && out.pos <= out.buf.Length && out.bitsIn < 8
    ensures var fs := [Field(bb, n)] + (HeadFields(head) + PieceFields(p, n));
            Settled(out.buf[..out.pos], out.bitBuffer, out.bitsIn, fs + MarkerFields(flush, t, Len(fs)))
  {
    FlushBlock.Sizes(out);
    hide *;
    var fs := [Field(bb, n)] + (HeadFields(head) + PieceFields(p, n));
    FlushLen(head, p, flush, t, bb, n);
    RoomIfFits(out, fs + MarkerFields(flush, t, Len(fs)));
    NothingDropped(out, fs + MarkerFields(flush, t, Len(fs)));
  }

  /** The header is whole bytes, so the block is the same behind it. */
  lemma HeadShift(p: Piece, bb: nat, n: nat, head: bool)
    requires Good(p)
    ensures var fs := [Field(bb, n)] + HeadFields(head);
            && fs + PieceFields(p, Len(fs)) == [Field(bb, n)] + (HeadFields(head) + PieceFields(p, n))
            && PieceFields(p, Len(fs)) == PieceFields(p, n)
  {
    hide *;
    var fs := [Field(bb, n)] + HeadFields(head);
    HeadLen(head);
    Single(Field(bb, n));
    Append([Field(bb, n)], HeadFields(head));
    EightMore(if head then 2 else 0, n);
    PieceAt(p, n, Len(fs));
    DynamicHeader.Regroup([Field(bb, n)], HeadFields(head), PieceFields(p, n));
  }
}
