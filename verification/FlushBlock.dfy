/**
  tdefl_flush_block up to the output: one block, coded or raw, and the
  marker that a flush asks for.
 */
module FlushBlock {
  import opened Arith
  import opened Bits
  import opened Wrappers
  import opened BitStream
  import opened BitOutput
  import opened Tokens
  import opened LzCodes
  import opened BitEmitter
  import opened BlockForm
  import opened Blocks
  import DynamicHeader

  const OUT_BUF_SIZE := LZ_CODE_BUF_SIZE * 13 / 10

  datatype Flush = NoFlush | SyncFlush | FullFlush | Finish

  /** An output buffer of the compressor: 16 bytes at its end are kept free. */
  ghost predicate OutBuffer(out: Output) {
    out.buf.Length == OUT_BUF_SIZE && out.end == OUT_BUF_SIZE - 16
  }

  lemma Sizes(out: Output)
    requires OutBuffer(out)
    ensures out.end == 85180 && out.buf.Length == 85196
  {
  }

  lemma PendingIs(out: Output, fs: seq<Field>)
    requires out.Valid(fs)
    ensures out.bitsIn == Len(fs) % 8 && out.end <= out.buf.Length && out.pos <= out.buf.Length
    ensures Holds(out.buf[..], out.pos, out.end, out.bitBuffer, out.bitsIn, fs)
  {
    HoldsCount(out.buf[..], out.pos, out.end, out.bitBuffer, out.bitsIn, fs);
    hide Holds, Len, Pow2;
  }

  lemma HoldsCount(bytes: seq<Byte>, pos: nat, end: nat, bb: nat, n: nat, fs: seq<Field>)
    requires Holds(bytes, pos, end, bb, n, fs) && n < 8
    ensures n == Len(fs) % 8 && pos <= |bytes|
  {
    hide Settled, Len, Pow2;
    if Settled(bytes[..pos], bb, n, fs) {
      SettledLen(bytes[..pos], bb, n, fs);
      LowThreeBits(Len(fs), n);
    } else {
      SpilledLen(pos, end, bb, n, fs);
      LowThreeBits(Len(fs), n);
    }
  }

  lemma SpilledLen(pos: nat, end: nat, bb: nat, n: nat, fs: seq<Field>)
    requires Spilled(pos, end, bb, n, fs)
    ensures Len(fs) >= n && (Len(fs) - n) % 8 == 0
  {
    hide Len, Pow2;
  }

  lemma LowThreeBits(l: nat, n: nat)
    requires n < 8 && l >= n && (l - n) % 8 == 0
    ensures n == l % 8
  {
  }

  /** Zero bits up to the byte boundary. */
  method PutPadding(out: Output, ghost fs: seq<Field>)
    requires out.Valid(fs)
    modifies out`pos, out`bitBuffer, out`bitsIn, out.buf
    ensures out.Valid(fs + PadFields(Len(fs)))
  {
    PendingIs(out, fs);
    PadIs(Len(fs));
    hide *;
    if out.bitsIn != 0 {
      ZeroFits(8 - out.bitsIn);
      out.PutBits(0, 8 - out.bitsIn, fs);
    } else {
      assert fs + [] == fs;
    }
  }

  lemma PadIs(at: nat)
    ensures PadFields(at) == if at % 8 == 0 then [] else [Field(0, 8 - at % 8)]
    ensures Len(PadFields(at)) <= 7 && (at + Len(PadFields(at))) % 8 == 0
  {
    if at % 8 != 0 { Single(Field(0, 8 - at % 8)); }
  }

  lemma ZeroFits(n: nat)
    ensures 0 < Pow2(n)
  {
  }

  lemma WordFits(n: nat)
    requires n < 0x1_0000
    ensures n < Pow2(16) && n % 0x1_0000 == n
  {
    Pow2Values();
  }

  /** The length of a raw block, then its complement: the value is flipped twice. */
  method PutLength(out: Output, n: nat, ghost fs: seq<Field>)
    requires out.Valid(fs) && n < 0x1_0000
    modifies out`pos, out`bitBuffer, out`bitsIn, out.buf
    ensures out.Valid(fs + [Field(n, 16)] + [Field(0xFFFF - n, 16)])
  {
    hide *;
    Complement(n);
    WordFits(n);
    WordFits(0xFFFF - n);
    var x: nat := n;
    out.PutBits(x % 0x1_0000, 16, fs);
    x := Xor(x, 0xFFFF);
    ghost var gs := fs + [Field(n, 16)];
    out.PutBits(x % 0x1_0000, 16, gs);
  }

  /** A raw block from the ring. */
  method PutRaw(out: Output, dict: array<Byte>, dictPos: nat, total: nat, ghost bytes: seq<Byte>, ghost fs: seq<Field>)
    requires out.Valid(fs) && dict != out.buf && dict.Length >= 32768 && total == |bytes| < 0x1_0000
    requires forall i: nat :: i < total ==> dict[(dictPos + i) % 32768] == bytes[i]
    modifies out`pos, out`bitBuffer, out`bitsIn, out.buf
    ensures out.Valid(fs + ([Field(0, 2)] + RawFields(bytes, Len(fs) + 2)))
  {
    RawIs(bytes, fs);
    hide *;
    ghost var z, n, c := [Field(0, 2)], [Field(total, 16)], [Field(0xFFFF - total, 16)];
    ZeroFits(2);
    out.PutBits(0, 2, fs);
    PutPadding(out, fs + z);
    PutLength(out, total, fs + z + PadFields(Len(fs + z)));
    ghost var gs := fs + z + PadFields(Len(fs + z)) + n + c;
    assert bytes[..0] == [];
    NoBytes(gs);
    for i := 0 to total
      invariant out.Valid(gs + ByteFields(bytes[..i]))
    {
      MoreBytes(gs, bytes, i);
      out.PutBits(dict[(dictPos + i) % 32768], 8, gs + ByteFields(bytes[..i]));
    }
    assert bytes[..total] == bytes;
  }

  lemma NoBytes(gs: seq<Field>)
    ensures gs + ByteFields([]) == gs
  {
  }

  lemma MoreBytes(gs: seq<Field>, bytes: seq<Byte>, i: nat)
    requires i < |bytes|
    ensures gs + ByteFields(bytes[..i]) + [Field(bytes[i], 8)] == gs + ByteFields(bytes[..i + 1]) && bytes[i] < Pow2(8)
  {
    Pow2Values();
  }

  lemma RawIs(bytes: seq<Byte>, fs: seq<Field>)
    requires |bytes| < 0x1_0000
    ensures fs + [Field(0, 2)] + PadFields(Len(fs + [Field(0, 2)])) + [Field(|bytes|, 16)]
            + [Field(0xFFFF - |bytes|, 16)] + ByteFields(bytes)
         == fs + ([Field(0, 2)] + RawFields(bytes, Len(fs) + 2))
  {
    Append(fs, [Field(0, 2)]);
    Single(Field(0, 2));
    hide ByteFields, PadFields, Len;
  }

  lemma RawLen(bytes: seq<Byte>, at: nat)
    requires |bytes| < 0x1_0000
    ensures Len(RawFields(bytes, at)) <= 39 + 8 * |bytes|
  {
    var p, n, c, b := PadFields(at), [Field(|bytes|, 16)], [Field(0xFFFF - |bytes|, 16)], ByteFields(bytes);
    PadIs(at);
    ByteFieldsLen(bytes);
    Single(Field(|bytes|, 16));
    Single(Field(0xFFFF - |bytes|, 16));
    hide Len, ByteFields, PadFields;
    Append(p, n + (c + b));
    Append(n, c + b);
    Append(c, b);
  }

  lemma RawPiece(final: bool, bytes: seq<Byte>, fs: seq<Field>) returns (p: Piece)
    requires |bytes| < 0x1_0000
    ensures p == Raw(final, bytes) && Good(p)
    ensures fs + [Field(FinalBit(p), 1)] + ([Field(0, 2)] + RawFields(bytes, Len(fs + [Field(FinalBit(p), 1)]) + 2))
            == fs + PieceFields(p, Len(fs))
    ensures Len(fs + PieceFields(p, Len(fs))) <= Len(fs) + 42 + 8 * |bytes|
  {
    p := Raw(final, bytes);
    var f, z, r := [Field(FinalBit(p), 1)], [Field(0, 2)], RawFields(bytes, Len(fs) + 3);
    RawPieceFields(p, Len(fs));
    RawLen(bytes, Len(fs) + 3);
    Single(Field(FinalBit(p), 1));
    Single(Field(0, 2));
    hide *;
    Append(fs, f);
    DynamicHeader.Regroup(fs, f, z + r);
    Append(fs, f + (z + r));
    Append(f, z + r);
    Append(z, r);
  }

  lemma RawPieceFields(p: Piece, at: nat)
    requires p.Raw? && |p.bytes| < 0x1_0000
    ensures Good(p) && PieceFields(p, at) == [Field(FinalBit(p), 1)] + ([Field(0, 2)] + RawFields(p.bytes, at + 3))
  {
    hide RawFields;
  }

  lemma CodedPiece(final: bool, form: Form, tb: Tables, ts: seq<Token>, fs: seq<Field>) returns (p: Piece)
    requires Block(form, tb, ts)
    ensures p == Coded(final, form, tb, ts) && Good(p)
    ensures fs + [Field(FinalBit(p), 1)] + BlockStream(form, tb, ts) == fs + PieceFields(p, Len(fs))
  {
    p := Coded(final, form, tb, ts);
    hide Len, BlockStream, Block;
    assert fs + [Field(FinalBit(p), 1)] + BlockStream(form, tb, ts)
           == fs + ([Field(FinalBit(p), 1)] + BlockStream(form, tb, ts));
  }

  /** The ring holds the bytes from dictPos on. */
  ghost predicate InRing(dict: seq<Byte>, dictPos: nat, bytes: seq<Byte>) {
    |dict| >= 32768 && forall i: nat :: i < |bytes| ==> dict[(dictPos + i) % 32768] == bytes[i]
  }

  /** The final bit, and the position behind it is saved. */
  method PutFinal(out: Output, final: bool, ghost fs: seq<Field>)
    returns (pos: nat, bitBuffer: nat, bitsIn: nat, ghost bytes: seq<Byte>)
    requires out.Valid(fs)
    modifies out
    modifies out.buf
    ensures out.Valid(fs + [Field(if final then 1 else 0, 1)])
    ensures pos == out.pos && bitBuffer == out.bitBuffer && bitsIn == out.bitsIn && bytes == out.buf[..]
    ensures |out.kept| == pos <= |bytes| && bytes[..pos] == out.kept && bitsIn < 8 && out.end <= out.buf.Length
    ensures Holds(bytes, pos, out.end, bitBuffer, bitsIn, fs + [Field(if final then 1 else 0, 1)])
    ensures var gs := fs + [Field(if final then 1 else 0, 1)]; Len(gs) < 8 * (out.end + 1) ==> pos == Len(gs) / 8
  {
    OneBit();
    hide *;
    out.PutBits(if final then 1 else 0, 1, fs);
    ghost var gs := fs + [Field(if final then 1 else 0, 1)];
    PendingIs(out, gs);
    if Len(gs) < 8 * (out.end + 1) { PosIs(out, gs); }
    out.Save(gs);
    pos, bitBuffer, bitsIn, bytes := out.pos, out.bitBuffer, out.bitsIn, out.buf[..];
    assert bytes[..pos] == out.buf[..pos];
  }

  /** The write position counts the whole bytes. */
  lemma PosIs(out: Output, fs: seq<Field>)
    requires out.Valid(fs) && Len(fs) < 8 * (out.end + 1)
    ensures out.pos == Len(fs) / 8
  {
    hide *;
    NothingDropped(out, fs);
    SettledLen(out.buf[..out.pos], out.bitBuffer, out.bitsIn, fs);
    WholePart(out.pos, out.bitsIn);
  }

  lemma WholePart(q: nat, r: nat)
    requires r < 8
    ensures (8 * q + r) / 8 == q
  {
  }

  lemma OneBit()
    ensures Pow2(1) == 2
  {
  }

  lemma TokenFacts(codes: LzCodeBuffer, ts: seq<Token>)
    requires codes.Valid(ts)
    ensures Counted(codes.litCount[..], codes.distCount[..], ts) && codes.litCount != codes.distCount
    ensures AllRecordable(ts) && |ts| + 1 < 0x1_0000
    ensures codes.buf.Length == LZ_CODE_BUF_SIZE && codes.litCount.Length == LIT_SYMBOLS
            && codes.distCount.Length == DIST_SYMBOLS
  {
    FewTokens(codes.buf[..], codes.next, codes.flags, codes.left, ts);
  }

  lemma StaticRoom(out: Output, tb: Tables, ts: seq<Token>, form: Form, gs: seq<Field>, n: nat)
    requires Block(form, tb, ts) && form.Static? && AllRecordable(ts) && |Encoded(ts)| == n <= LZ_CODE_BUF_SIZE
             && Len(gs) <= 24 && OutBuffer(out)
    ensures Len(gs + BlockStream(form, tb, ts)) / 8 < out.end
  {
    Sizes(out);
    StaticFits(tb, ts);
    Append(gs, BlockStream(form, tb, ts));
    hide *;
    StaticOnly(form);
  }

  lemma StaticOnly(form: Form)
    ensures form.Static? <==> form == Static
  {
  }

  /** The compressed attempts: first as asked for; behind a saved position, for the fallback, with the static code,
      which always fits. */
  method WriteCoded(out: Output, codes: LzCodeBuffer, isStatic: bool, final: bool, ghost fs: seq<Field>,
                    ghost gs: seq<Field>, ghost ts: seq<Token>)
    returns (ok: bool, ghost p: Piece)
    requires out.Valid(gs) && gs == fs + [Field(if final then 1 else 0, 1)] && OutBuffer(out) && Len(gs) <= 24
    requires AllRecordable(ts) && codes.next <= codes.buf.Length == LZ_CODE_BUF_SIZE
             && codes.buf[..codes.next] == Encoded(ts)
    requires codes.litCount != codes.distCount && codes.buf != out.buf
    requires !isStatic ==> Counted(codes.litCount[..], codes.distCount[..], ts) && |ts| + 1 < 0x1_0000
    modifies codes.litCount, out`pos, out`bitBuffer, out`bitsIn, out.buf
    ensures Good(p) && p.final == final && p.Coded? && p.ts == ts && p.form.Static? == isStatic && SmallPiece(p)
    ensures isStatic ==> ok
    ensures ok <==> Len(fs + PieceFields(p, Len(fs))) / 8 < out.end
    ensures ok ==>
            out.Valid(fs + PieceFields(p, Len(fs))) && out.pos == Len(fs + PieceFields(p, Len(fs))) / 8
    ensures out.Kept() && out.end <= out.buf.Length
  {
    Sizes(out);
    hide *;
    ghost var form, tb;
    ok, form, tb := CompressBlock(out, codes.buf[..codes.next], codes.litCount, codes.distCount, isStatic, gs, ts);
    p := CodedPiece(final, form, tb, ts, fs);
    CodedIsSmall(p);
    FinalIs(p);
    if isStatic { StaticRoom(out, tb, ts, form, gs, codes.next); }
    if ok {
      EndsBefore(Len(fs + PieceFields(p, Len(fs))), out.end);
      PosIs(out, fs + PieceFields(p, Len(fs)));
    }
  }

  lemma EndsBefore(l: nat, end: nat)
    requires l / 8 < end
    ensures l < 8 * (end + 1)
  {
  }

  /** What is tried first: the block with a code, static or not. */
  ghost predicate Attempt(c: Piece, final: bool, ts: seq<Token>, isStatic: bool) {
    Good(c) && c.Coded? && c.final == final && c.ts == ts && c.form.Static? == isStatic && SmallPiece(c)
  }

  /** A block of so many bytes gets expanded: behind the final bit it takes as many whole bytes, less one, or more. */
  ghost predicate Expanded(c: Piece, at: nat, total: nat)
    requires Good(c)
  {
    total > 0 && (at + Len(PieceFields(c, at))) / 8 - (at + 1) / 8 + 1 >= total
  }

  /** How a block is written: raw if that is asked for or the coded one gets expanded, provided that the ring still
      holds the bytes; otherwise as first tried. */
  ghost predicate Chosen(p: Piece, c: Piece, at: nat, total: nat, canBeRaw: bool, rawBlocks: bool) {
    if rawBlocks && canBeRaw then p.Raw?
    else Good(c) && (p.Raw? <==> canBeRaw && Expanded(c, at, total)) && (!p.Raw? ==> p == c)
  }

  /** What keeps a block far below the size of the output buffer. */
  ghost predicate SmallPiece(p: Piece) {
    match p
    case Coded(final, form, tb, ts) => Compact(form, tb, ts)
    case Raw(final, bytes) => |bytes| <= 32768
    case Rejected(final, why) => false
  }

  lemma CodedIsSmall(p: Piece)
    ensures p.Coded? && Compact(p.form, p.tb, p.ts) ==> SmallPiece(p)
    ensures p.Raw? && |p.bytes| <= 32768 ==> SmallPiece(p)
  {
  }

  lemma FinalIs(p: Piece)
    ensures FinalBit(p) == if p.final then 1 else 0
  {
  }

  method WriteRaw(out: Output, dict: array<Byte>, dictPos: nat, total: nat, final: bool, ghost bytes: seq<Byte>,
                  ghost fs: seq<Field>, ghost gs: seq<Field>)
    returns (ghost p: Piece)
    requires out.Valid(gs) && gs == fs + [Field(if final then 1 else 0, 1)] && OutBuffer(out) && Len(fs) < 24
    requires dict != out.buf && dict.Length >= 32768 && total == |bytes| <= 32768 && InRing(dict[..], dictPos, bytes)
    modifies out`pos, out`bitBuffer, out`bitsIn, out.buf
    ensures p == Raw(final, bytes) && Good(p) && SmallPiece(p)
    ensures out.Valid(fs + PieceFields(p, Len(fs))) && Len(fs + PieceFields(p, Len(fs))) / 8 < out.end
  {
    RingIs(dict, dictPos, bytes);
    Sizes(out);
    hide *;
    PutRaw(out, dict, dictPos, total, bytes, gs);
    p := RawPiece(final, bytes, fs);
    CodedIsSmall(p);
    FinalIs(p);
  }

  lemma RingIs(dict: array<Byte>, dictPos: nat, bytes: seq<Byte>)
    requires InRing(dict[..], dictPos, bytes)
    ensures forall i: nat :: i < |bytes| ==>
            (dictPos + i) % 32768 < dict.Length && dict[(dictPos + i) % 32768] == bytes[i]
  {
  }

  /** One block of the tokens: compressed, or raw if that is asked for or shorter. For a dynamic block that does not
      fit there is the static one; that it always fits is shown from its size (BlockSize). */
  method WriteBlock(codes: LzCodeBuffer, out: Output, dict: array<Byte>, dictPos: nat, canBeRaw: bool, rawBlocks: bool,
                    staticBlocks: bool, final: bool, ghost ts: seq<Token>, ghost bytes: seq<Byte>, ghost fs: seq<Field>)
    returns (ghost p: Piece, ghost c: Piece)
    requires codes.Valid(ts) && out.Valid(fs) && OutBuffer(out) && Len(fs) < 24
    requires dict != out.buf && out.buf != codes.buf && dict != codes.buf && dict.Length >= 32768
    requires canBeRaw ==> |bytes| == codes.totalLzBytes <= 32768 && InRing(dict[..], dictPos, bytes)
    modifies codes`next, codes.buf, codes.litCount, out, out.buf
    ensures Good(p) && p.final == final && (p.Coded? ==> p.ts == ts) && (p.Raw? ==> canBeRaw && p.bytes == bytes)
    ensures SmallPiece(p) && (rawBlocks && canBeRaw ==> p.Raw?)
    ensures p.Raw? ==> rawBlocks || codes.totalLzBytes > 0
    ensures p.Coded? && (staticBlocks || codes.totalLzBytes < 48) ==> p.form.Static?
    ensures out.Valid(fs + PieceFields(p, Len(fs))) && Len(fs + PieceFields(p, Len(fs))) / 8 < out.end
    ensures !(rawBlocks && canBeRaw) ==> Attempt(c, final, ts, staticBlocks || codes.totalLzBytes < 48)
    ensures (rawBlocks && canBeRaw) || (Good(c) && Len(fs + PieceFields(c, Len(fs))) / 8 < out.end) ==>
              Chosen(p, c, Len(fs), codes.totalLzBytes, canBeRaw, rawBlocks)
  {
    TokenFacts(codes, ts);
    FirstBit(fs, final);
    hide *;
    ghost var ring := dict[..];
    codes.Close(ts);
    var pos, bitBuffer, bitsIn;
    ghost var saved;
    pos, bitBuffer, bitsIn, saved := PutFinal(out, final, fs);
    ghost var gs := fs + [Field(if final then 1 else 0, 1)];
    assert dict[..] == ring;
    Sizes(out);
    p, c := WriteBody(codes, out, dict, dictPos, canBeRaw, rawBlocks, staticBlocks, final, pos, bitBuffer, bitsIn, ts,
                   bytes, fs, gs, saved);
  }

  lemma FirstBit(fs: seq<Field>, final: bool)
    ensures Len(fs + [Field(if final then 1 else 0, 1)]) == Len(fs) + 1
  {
    Append(fs, [Field(if final then 1 else 0, 1)]);
    Single(Field(if final then 1 else 0, 1));
  }

  method WriteBody(codes: LzCodeBuffer, out: Output, dict: array<Byte>, dictPos: nat, canBeRaw: bool, rawBlocks: bool,
                   staticBlocks: bool, final: bool, savedPos: nat, savedBits: nat, savedCount: nat,
                   ghost ts: seq<Token>, ghost bytes: seq<Byte>, ghost fs: seq<Field>, ghost gs: seq<Field>,
                   ghost saved: seq<Byte>)
    returns (ghost p: Piece, ghost c: Piece)
    requires out.Valid(gs) && gs == fs + [Field(if final then 1 else 0, 1)] && OutBuffer(out) && Len(fs) < 24
             && Len(gs) == Len(fs) + 1 && savedPos == Len(gs) / 8
    requires dict != out.buf && out.buf != codes.buf && dict != codes.buf && dict.Length >= 32768
    requires canBeRaw ==> |bytes| == codes.totalLzBytes <= 32768 && InRing(dict[..], dictPos, bytes)
    requires AllRecordable(ts) && codes.next <= codes.buf.Length == LZ_CODE_BUF_SIZE
             && codes.buf[..codes.next] == Encoded(ts)
    requires codes.litCount != codes.distCount && Counted(codes.litCount[..], codes.distCount[..], ts)
             && |ts| + 1 < 0x1_0000
    requires |out.kept| == savedPos <= |saved| && saved[..savedPos] == out.kept && savedCount < 8
    requires Holds(saved, savedPos, out.end, savedBits, savedCount, gs)
    modifies codes.litCount, out`pos, out`bitBuffer, out`bitsIn, out.buf
    ensures Good(p) && p.final == final && (p.Coded? ==> p.ts == ts) && (p.Raw? ==> canBeRaw && p.bytes == bytes)
    ensures SmallPiece(p) && (rawBlocks && canBeRaw ==> p.Raw?)
    ensures p.Raw? ==> rawBlocks || codes.totalLzBytes > 0
    ensures p.Coded? && (staticBlocks || codes.totalLzBytes < 48) ==> p.form.Static?
    ensures out.Valid(fs + PieceFields(p, Len(fs))) && Len(fs + PieceFields(p, Len(fs))) / 8 < out.end
    ensures !(rawBlocks && canBeRaw) ==> Attempt(c, final, ts, staticBlocks || codes.totalLzBytes < 48)
    ensures (rawBlocks && canBeRaw) || (Good(c) && Len(fs + PieceFields(c, Len(fs))) / 8 < out.end) ==>
              Chosen(p, c, Len(fs), codes.totalLzBytes, canBeRaw, rawBlocks)
  {
    hide *;
    var useRaw, ok := rawBlocks && canBeRaw, false;
    ghost var ring := dict[..];
    KeptNow(out, gs);
    p, c := EmptyRaw(), EmptyRaw();
    if !useRaw {
      ok, p := WriteCoded(out, codes, staticBlocks || codes.totalLzBytes < 48, final, fs, gs, ts);
      c := p;
      IsAttempt(c, final, ts, staticBlocks || codes.totalLzBytes < 48);
      if ok { ExpandedIs(c, fs, codes.totalLzBytes); }
    }
    assert dict[..] == ring;
    if (useRaw || (codes.totalLzBytes != 0 && out.pos - savedPos + 1 >= codes.totalLzBytes)) && canBeRaw {
      out.Restore(savedPos, savedBits, savedCount, saved, gs);
      p := WriteRaw(out, dict, dictPos, codes.totalLzBytes, final, bytes, fs, gs);
    } else if !ok {
      out.Restore(savedPos, savedBits, savedCount, saved, gs);
      ok, p := WriteCoded(out, codes, true, final, fs, gs, ts);
    }
    if useRaw || Len(fs + PieceFields(c, Len(fs))) / 8 < out.end {
      IsChosen(p, c, Len(fs), codes.totalLzBytes, canBeRaw, rawBlocks);
    }
  }

  ghost function EmptyRaw(): Piece {
    Raw(false, [])
  }

  lemma IsAttempt(c: Piece, final: bool, ts: seq<Token>, isStatic: bool)
    requires Good(c) && c.Coded? && c.final == final && c.ts == ts && c.form.Static? == isStatic && SmallPiece(c)
    ensures Attempt(c, final, ts, isStatic)
  {
  }

  lemma ExpandedIs(c: Piece, fs: seq<Field>, total: nat)
    requires Good(c)
    ensures Expanded(c, Len(fs), total) <==>
            total > 0 && Len(fs + PieceFields(c, Len(fs))) / 8 - (Len(fs) + 1) / 8 + 1 >= total
  {
    Append(fs, PieceFields(c, Len(fs)));
    hide Good, PieceFields, Len;
  }

  lemma IsChosen(p: Piece, c: Piece, at: nat, total: nat, canBeRaw: bool, rawBlocks: bool)
    requires if rawBlocks && canBeRaw then p.Raw?
             else Good(c) && (p.Raw? <==> canBeRaw && Expanded(c, at, total)) && (!p.Raw? ==> p == c)
    ensures Chosen(p, c, at, total, canBeRaw, rawBlocks)
  {
  }

  lemma KeptNow(out: Output, gs: seq<Field>)
    requires out.Valid(gs)
    ensures out.Kept() && out.end <= out.buf.Length
  {
  }

  // ----- the marker behind a flushed block

  /** What a flush adds: an empty raw block, or the padding at the end of the stream and the zlib trailer. */
  ghost function MarkerFields(flush: Flush, trailer: seq<Byte>, at: nat): seq<Field> {
    match flush
    case NoFlush => []
    case Finish => PadFields(at) + ByteFields(trailer)
    case _ => EmptyIsGood(); PieceFields(Raw(false, []), at)
  }

  // The zlib header goes before the first block: deflate with a window of 32768 bytes, and a check value that makes
  // both bytes together a multiple of 31 (section 2.2 of RFC 1950).

  const ZLIB_CMF := 0x78
  const ZLIB_FLG := 0x01

  function HeadFields(head: bool): (r: seq<Field>)
    ensures !head ==> r == []
  {
    if head then [Field(ZLIB_CMF, 8), Field(ZLIB_FLG, 8)] else []
  }

  lemma HeadLen(head: bool)
    ensures Len(HeadFields(head)) == if head then 16 else 0
    ensures ZLIB_CMF < Pow2(8) && ZLIB_FLG < Pow2(8)
  {
    Pow2Values();
    Single(Field(ZLIB_CMF, 8));
    Single(Field(ZLIB_FLG, 8));
    Append([Field(ZLIB_CMF, 8)], [Field(ZLIB_FLG, 8)]);
    assert HeadFields(true) == [Field(ZLIB_CMF, 8)] + [Field(ZLIB_FLG, 8)];
    assert Len([]) == 0;
  }

  method PutHead(out: Output, head: bool, ghost fs: seq<Field>)
    requires out.Valid(fs)
    modifies out`pos, out`bitBuffer, out`bitsIn, out.buf
    ensures out.Valid(fs + HeadFields(head))
  {
    HeadLen(head);
    if head {
      out.PutBits(ZLIB_CMF, 8, fs);
      out.PutBits(ZLIB_FLG, 8, fs + [Field(ZLIB_CMF, 8)]);
      assert fs + [Field(ZLIB_CMF, 8)] + [Field(ZLIB_FLG, 8)] == fs + HeadFields(head);
    } else {
      assert fs + [] == fs;
    }
  }

  /** The four bytes of a checksum, most significant first. */
  function BigEndian(a: nat): (r: seq<Byte>)
    ensures |r| == 4
  {
    [a / 0x100_0000 % 0x100, a / 0x1_0000 % 0x100, a / 0x100 % 0x100, a % 0x100]
  }

  /** The zlib trailer: the checksum of the data. */
  function Trailer(zlib: bool, adler: nat): (r: seq<Byte>)
    ensures |r| == if zlib then 4 else 0
  {
    if zlib then BigEndian(adler) else []
  }

  /** What is left of the checksum when i bytes have been shifted out. */
  function ShiftedOut(adler: nat, i: nat): nat {
    if i == 0 then adler else if i == 1 then adler % 0x100_0000 * 0x100 else if i == 2 then adler % 0x1_0000 * 0x1_0000
    else if i == 3 then adler % 0x100 * 0x100_0000 else 0
  }

  lemma ShiftOut(adler: nat, i: nat)
    requires adler < 0x1_0000_0000 && i < 4
    ensures ShiftedOut(adler, i) / 0x100_0000 % 0x100 == BigEndian(adler)[i]
    ensures ShiftedOut(adler, i) * 0x100 % 0x1_0000_0000 == ShiftedOut(adler, i + 1)
  {
    var d3, d2, d1, d0 := Digits(adler);
    TopDigit(adler, d3, (d2 * 0x100 + d1) * 0x100 + d0);
    TopDigit(((d2 * 0x100 + d1) * 0x100 + d0) * 0x100, d2, (d1 * 0x100 + d0) * 0x100);
    TopDigit((d1 * 0x100 + d0) * 0x1_0000, d1, d0 * 0x1_0000);
    TopDigit(d0 * 0x100_0000, d0, 0);
  }

  lemma Digits(x: nat) returns (d3: nat, d2: nat, d1: nat, d0: nat)
    requires x < 0x1_0000_0000
    ensures d3 < 0x100 && d2 < 0x100 && d1 < 0x100 && d0 < 0x100 && x == ((d3 * 0x100 + d2) * 0x100 + d1) * 0x100 + d0
    ensures BigEndian(x) == [d3, d2, d1, d0]
    ensures x % 0x100_0000 == (d2 * 0x100 + d1) * 0x100 + d0 && x % 0x1_0000 == d1 * 0x100 + d0 && x % 0x100 == d0
  {
    var y, z := x / 0x100, x / 0x100 / 0x100;
    d3, d2, d1, d0 := z / 0x100, z % 0x100, y % 0x100, x % 0x100;
    DivUnique(x, 0x100, y, d0);
    DivUnique(x, 0x1_0000, z, d1 * 0x100 + d0);
    DivUnique(x, 0x100_0000, d3, (d2 * 0x100 + d1) * 0x100 + d0);
  }

  lemma TopDigit(x: nat, q: nat, r: nat)
    requires x == q * 0x100_0000 + r && r < 0x100_0000 && q < 0x100
    ensures x / 0x100_0000 % 0x100 == q && x * 0x100 % 0x1_0000_0000 == r * 0x100
  {
    DivUnique(x, 0x100_0000, q, r);
    DivUnique(x * 0x100, 0x1_0000_0000, q, r * 0x100);
  }

  method PutTrailer(out: Output, zlib: bool, adler: nat, ghost fs: seq<Field>)
    requires out.Valid(fs) && adler < 0x1_0000_0000
    modifies out`pos, out`bitBuffer, out`bitsIn, out.buf
    ensures out.Valid(fs + ByteFields(Trailer(zlib, adler)))
  {
    TrailerIs(zlib, adler);
    hide *;
    NoBytes(fs);
    if zlib {
      ghost var t := BigEndian(adler);
      var a: nat := adler;
      assert t[..0] == [];
      NothingShifted(adler);
      for i := 0 to 4
        invariant out.Valid(fs + ByteFields(t[..i])) && a == ShiftedOut(adler, i)
      {
        ShiftOut(adler, i);
        MoreBytes(fs, t, i);
        out.PutBits(a / 0x100_0000 % 0x100, 8, fs + ByteFields(t[..i]));
        a := a * 0x100 % 0x1_0000_0000;
      }
      assert t[..4] == t;
    }
  }

  lemma TrailerIs(zlib: bool, adler: nat)
    ensures Trailer(zlib, adler) == if zlib then BigEndian(adler) else []
  {
  }

  lemma NothingShifted(adler: nat)
    ensures ShiftedOut(adler, 0) == adler
  {
  }

  lemma EmptyIsGood()
    ensures Good(Raw(false, []))
  {
  }

  method PutMarker(out: Output, flush: Flush, zlib: bool, adler: nat, ghost fs: seq<Field>)
    requires out.Valid(fs) && adler < 0x1_0000_0000
    modifies out`pos, out`bitBuffer, out`bitsIn, out.buf
    ensures out.Valid(fs + MarkerFields(flush, Trailer(zlib, adler), Len(fs)))
  {
    hide *;
    ghost var t := Trailer(zlib, adler);
    MarkerIs(flush, t, fs);
    if flush == Finish {
      PutPadding(out, fs);
      PutTrailer(out, zlib, adler, fs + PadFields(Len(fs)));
      DynamicHeader.Regroup(fs, PadFields(Len(fs)), ByteFields(t));
    } else if flush != NoFlush {
      ZeroFits(3);
      out.PutBits(0, 3, fs);
      ghost var gs := fs + [Field(0, 3)];
      PutPadding(out, gs);
      PutLength(out, 0, gs + PadFields(Len(gs)));
      ValidSame(out, gs + PadFields(Len(gs)) + [Field(0, 16)] + [Field(0xFFFF, 16)],
                fs + MarkerFields(flush, t, Len(fs)));
    }
  }

  lemma MarkerIs(flush: Flush, trailer: seq<Byte>, fs: seq<Field>)
    ensures flush == NoFlush ==> fs + MarkerFields(flush, trailer, Len(fs)) == fs
    ensures flush == Finish ==> MarkerFields(flush, trailer, Len(fs)) == PadFields(Len(fs)) + ByteFields(trailer)
    ensures flush != NoFlush && flush != Finish ==>
              Same(fs + [Field(0, 3)] + PadFields(Len(fs + [Field(0, 3)])) + [Field(0, 16)] + [Field(0xFFFF, 16)],
                   fs + MarkerFields(flush, trailer, Len(fs)))
  {
    if flush != NoFlush && flush != Finish {
      EmptyBlock(flush, trailer, Len(fs));
      Append(fs, [Field(0, 3)]);
      Single(Field(0, 3));
      hide *;
      var pad, n, c := PadFields(Len(fs) + 3), [Field(0, 16)], [Field(0xFFFF, 16)];
      ThreeBitField(0, 0, pad + (n + c));
      SameSymmetric([Field(0, 1)] + ([Field(0, 2)] + (pad + (n + c))), [Field(0, 3)] + (pad + (n + c)));
      SamePrepend(fs, [Field(0, 3)] + (pad + (n + c)), [Field(0, 1)] + ([Field(0, 2)] + (pad + (n + c))));
      assert fs + [Field(0, 3)] + pad + n + c == fs + ([Field(0, 3)] + (pad + (n + c)));
    }
  }

  lemma EmptyBlock(flush: Flush, trailer: seq<Byte>, at: nat)
    requires flush != NoFlush && flush != Finish
    ensures MarkerFields(flush, trailer, at)
            == [Field(0, 1)] + ([Field(0, 2)] + (PadFields(at + 3) + ([Field(0, 16)] + [Field(0xFFFF, 16)])))
  {
    EmptyIsGood();
    RawPieceFields(Raw(false, []), at);
    assert ByteFields([]) == [];
    assert [Field(0xFFFF, 16)] + [] == [Field(0xFFFF, 16)];
  }

  // ----- what has been handed out

  /** The blocks as they are written: before some of them the code puts a zlib header. */
  ghost function Framed(hs: seq<bool>, ps: seq<Piece>): seq<Field>
    requires |hs| == |ps| && AllGood(ps)
  {
    if ps == [] then []
    else
      var fs := Framed(hs[..|ps| - 1], ps[..|ps| - 1]);
      fs + (HeadFields(hs[|ps| - 1]) + PieceFields(ps[|ps| - 1], Len(fs)))
  }

  /** The bytes handed out and the pending bits are the stream of the blocks, which stand for what the closed tokens
      stand for. */
  ghost predicate Sunk(bytes: seq<Byte>, bb: nat, n: nat, hs: seq<bool>, ps: seq<Piece>, closed: seq<Token>) {
    && AllGood(ps) && |hs| == |ps| && (forall i :: 0 <= i < |ps| ==> !Stops(ps[i]))
    && n < 8 && Settled(bytes, bb, n, Framed(hs, ps))
    && Expand(closed, []).Some? && Play(ps, []) == Expand(closed, [])
  }

  /** The same at the end of the stream: the last block is final, and behind it come the padding and the trailer. */
  ghost predicate SunkAll(bytes: seq<Byte>, hs: seq<bool>, ps: seq<Piece>, trailer: seq<Byte>, closed: seq<Token>) {
    && AllGood(ps) && |hs| == |ps| && Ended(ps) && Play(ps, []) == Expand(closed, [])
    && exists pad: nat :: pad < 8 && Same(ByteFields(bytes), Framed(hs, ps) + [Field(0, pad)] + ByteFields(trailer))
  }

  lemma NothingSunk()
    ensures Sunk([], 0, 0, [], [], [])
  {
    NothingYet([]);
  }

  lemma PieceAt(p: Piece, a: nat, b: nat)
    requires Good(p) && a % 8 == b % 8
    ensures PieceFields(p, a) == PieceFields(p, b)
  {
    ShiftedMod(a, b);
    hide Len, BlockStream, ByteFields;
  }

  lemma ShiftedMod(a: nat, b: nat)
    requires a % 8 == b % 8
    ensures (a + 3) % 8 == (b + 3) % 8
  {
    assert a + 3 == 8 * (a / 8) + (a % 8 + 3) && b + 3 == 8 * (b / 8) + (b % 8 + 3);
  }

  /** Bytes behind bytes: the pending bits of the first open the stream of the second. */
  lemma Join(s: seq<Byte>, bb: nat, n: nat, fs: seq<Field>, t: seq<Byte>, cc: nat, m: nat, gs: seq<Field>)
    requires Settled(s, bb, n, fs) && Settled(t, cc, m, [Field(bb, n)] + gs)
    ensures Settled(s + t, cc, m, fs + gs)
  {
    SettledIs(s, bb, n, fs);
    SettledIs(t, cc, m, [Field(bb, n)] + gs);
    BytesJoin(s, t);
    hide *;
    var a, b, f, g := ByteFields(s), ByteFields(t), [Field(bb, n)], [Field(cc, m)];
    SamePrepend(a, b + g, f + gs);
    SameAppend(a + f, fs, gs);
    assert a + (b + g) == a + b + g && a + (f + gs) == a + f + gs;
    SameTransitive(a + b + g, a + f + gs, fs + gs);
    SettledIs(s + t, cc, m, fs + gs);
  }

  lemma BytesJoin(s: seq<Byte>, t: seq<Byte>)
    ensures ByteFields(s + t) == ByteFields(s) + ByteFields(t)
  {
  }

  /** A pending field is where the next flush starts. */
  lemma PendingStart(bytes: seq<Byte>, bb: nat, n: nat)
    requires bytes == [] && bb < Pow2(n)
    ensures Settled(bytes, bb, n, [Field(bb, n)]) && Len([Field(bb, n)]) == n
  {
    assert ByteFields(bytes) + [Field(bb, n)] == [Field(bb, n)];
    Single(Field(bb, n));
  }

  /** One more block, not final. */
  lemma SunkMore(bytes: seq<Byte>, bb: nat, n: nat, hs: seq<bool>, ps: seq<Piece>, closed: seq<Token>, h: bool,
                 p: Piece, ts: seq<Token>, more: seq<Byte>, cc: nat, m: nat)
    requires Sunk(bytes, bb, n, hs, ps, closed) && Good(p) && !Stops(p) && m < 8
    requires Settled(more, cc, m, [Field(bb, n)] + (HeadFields(h) + PieceFields(p, n)))
    requires PlayOne(p, Expand(closed, []).value) == Expand(closed + ts, []) && Expand(closed + ts, []).Some?
    ensures Sunk(bytes + more, cc, m, hs + [h], ps + [p], closed + ts)
  {
    hide *;
    SunkIs(bytes, bb, n, hs, ps, closed);
    FramedMore(bytes, bb, n, hs, ps, h, p);
    Join(bytes, bb, n, Framed(hs, ps), more, cc, m, HeadFields(h) + PieceFields(p, n));
    PlaySnoc(ps, p, []);
    NoneFinal(ps, p);
    NowSunk(bytes + more, cc, m, hs + [h], ps + [p], closed + ts);
  }

  lemma NoneFinal(ps: seq<Piece>, p: Piece)
    requires !Stops(p) && forall i :: 0 <= i < |ps| ==> !Stops(ps[i])
    ensures forall i :: 0 <= i < |ps + [p]| ==> !Stops((ps + [p])[i])
  {
  }

  lemma FramedMore(bytes: seq<Byte>, bb: nat, n: nat, hs: seq<bool>, ps: seq<Piece>, h: bool, p: Piece)
    requires AllGood(ps) && |hs| == |ps| && Good(p) && n < 8 && Settled(bytes, bb, n, Framed(hs, ps))
    ensures AllGood(ps + [p]) && Framed(hs + [h], ps + [p]) == Framed(hs, ps) + (HeadFields(h) + PieceFields(p, n))
  {
    hide *;
    FramedSnoc(hs, ps, h, p);
    SettledLen(bytes, bb, n, Framed(hs, ps));
    EightMore(|bytes|, n);
    PieceAt(p, n, Len(Framed(hs, ps)));
  }

  lemma FramedSnoc(hs: seq<bool>, ps: seq<Piece>, h: bool, p: Piece)
    requires AllGood(ps) && |hs| == |ps| && Good(p)
    ensures AllGood(ps + [p])
    ensures Framed(hs + [h], ps + [p]) == Framed(hs, ps) + (HeadFields(h) + PieceFields(p, Len(Framed(hs, ps))))
  {
    hide Good, PieceFields, HeadFields, Len;
    assert (hs + [h])[..|ps|] == hs && (ps + [p])[..|ps|] == ps;
  }

  /** With a header before the first block at most, the framed blocks are the header and the stream. */
  lemma {:induction false} FramedIsStream(hs: seq<bool>, ps: seq<Piece>, zlib: bool)
    requires AllGood(ps) && |hs| == |ps| > 0 && hs[0] == zlib && forall i :: 0 < i < |hs| ==> !hs[i]
    ensures Framed(hs, ps) == HeadFields(zlib) + Stream(ps, 0)
    decreases |ps|
  {
    hide *;
    var n: nat := |ps| - 1;
    var gs, qs, p := hs[..n], ps[..n], ps[n];
    assert gs + [hs[n]] == hs && qs + [p] == ps;
    AllButLast(ps);
    FramedSnoc(gs, qs, hs[n], p);
    StreamSnoc(qs, p, 0);
    if n == 0 {
      NothingFramed(gs, qs);
      assert [] + (HeadFields(zlib) + PieceFields(p, 0)) == HeadFields(zlib) + ([] + PieceFields(p, 0));
    } else {
      FramedIsStream(gs, qs, zlib);
      HeadLen(zlib);
      Append(HeadFields(zlib), Stream(qs, 0));
      PieceAt(p, Len(Framed(gs, qs)), Len(Stream(qs, 0)));
      assert HeadFields(zlib) + Stream(qs, 0) + ([] + PieceFields(p, Len(Stream(qs, 0))))
          == HeadFields(zlib) + (Stream(qs, 0) + PieceFields(p, Len(Stream(qs, 0))));
    }
  }

  lemma AllButLast(ps: seq<Piece>)
    requires AllGood(ps) && ps != []
    ensures AllGood(ps[..|ps| - 1]) && Good(ps[|ps| - 1])
  {
    hide Good;
  }

  lemma NothingFramed(hs: seq<bool>, ps: seq<Piece>)
    requires |hs| == |ps| == 0
    ensures AllGood(ps) && Framed(hs, ps) == [] && Stream(ps, 0) == [] && Len([]) == 0
  {
  }

  lemma EightMore(k: nat, n: nat)
    ensures (8 * k + n) % 8 == n % 8
  {
  }

  lemma SunkIs(bytes: seq<Byte>, bb: nat, n: nat, hs: seq<bool>, ps: seq<Piece>, closed: seq<Token>)
    requires Sunk(bytes, bb, n, hs, ps, closed)
    ensures AllGood(ps) && |hs| == |ps| && (forall i :: 0 <= i < |ps| ==> !Stops(ps[i])) && n < 8 && bb < Pow2(n)
    ensures Settled(bytes, bb, n, Framed(hs, ps)) && Expand(closed, []).Some? && Play(ps, []) == Expand(closed, [])
  {
  }

  lemma NowSunk(bytes: seq<Byte>, bb: nat, n: nat, hs: seq<bool>, ps: seq<Piece>, closed: seq<Token>)
    requires AllGood(ps) && |hs| == |ps| && (forall i :: 0 <= i < |ps| ==> !Stops(ps[i])) && n < 8
    requires Settled(bytes, bb, n, Framed(hs, ps)) && Expand(closed, []).Some? && Play(ps, []) == Expand(closed, [])
    ensures Sunk(bytes, bb, n, hs, ps, closed)
  {
  }

  /** The last block, the padding and the trailer. */
  lemma SunkLast(bytes: seq<Byte>, bb: nat, n: nat, hs: seq<bool>, ps: seq<Piece>, closed: seq<Token>, h: bool,
                 p: Piece, ts: seq<Token>, trailer: seq<Byte>, more: seq<Byte>, cc: nat, m: nat)
    requires Sunk(bytes, bb, n, hs, ps, closed) && Good(p) && p.final && m < 8
    requires var gs := HeadFields(h) + PieceFields(p, n);
             Settled(more, cc, m, [Field(bb, n)] + gs + (PadFields(Len([Field(bb, n)] + gs)) + ByteFields(trailer)))
    requires PlayOne(p, Expand(closed, []).value) == Expand(closed + ts, [])
    ensures SunkAll(bytes + more, hs + [h], ps + [p], trailer, closed + ts)
  {
    hide *;
    SunkIs(bytes, bb, n, hs, ps, closed);
    FramedMore(bytes, bb, n, hs, ps, h, p);
    PlaySnoc(ps, p, []);
    LastIsFinal(ps, p);
    var gs := HeadFields(h) + PieceFields(p, n);
    var l := Len([Field(bb, n)] + gs);
    LastBytes(bytes, bb, n, Framed(hs, ps), more, cc, m, gs, l, trailer);
    NowSunkAll(bytes + more, hs + [h], ps + [p], trailer, closed + ts, if l % 8 == 0 then 0 else 8 - l % 8);
  }

  lemma LastBytes(s: seq<Byte>, bb: nat, n: nat, fs: seq<Field>, t: seq<Byte>, cc: nat, m: nat, gs: seq<Field>, l: nat,
                  trailer: seq<Byte>)
    requires Settled(s, bb, n, fs) && m < 8 && l == Len([Field(bb, n)] + gs)
    requires Settled(t, cc, m, [Field(bb, n)] + gs + (PadFields(l) + ByteFields(trailer)))
    ensures Same(ByteFields(s + t), fs + gs + [Field(0, if l % 8 == 0 then 0 else 8 - l % 8)] + ByteFields(trailer))
  {
    hide *;
    WholeEnd(t, cc, m, [Field(bb, n)] + gs, trailer);
    DynamicHeader.Regroup([Field(bb, n)], gs, PadFields(l) + ByteFields(trailer));
    Join(s, bb, n, fs, t, cc, m, gs + (PadFields(l) + ByteFields(trailer)));
    DynamicHeader.Regroup(fs, gs, PadFields(l) + ByteFields(trailer));
    EndIsWhole(s + t, cc, fs + gs, l, trailer);
  }

  lemma LastIsFinal(ps: seq<Piece>, p: Piece)
    requires p.final && forall i :: 0 <= i < |ps| ==> !Stops(ps[i])
    ensures Ended(ps + [p])
  {
  }

  lemma NowSunkAll(bytes: seq<Byte>, hs: seq<bool>, ps: seq<Piece>, trailer: seq<Byte>, closed: seq<Token>, pad: nat)
    requires AllGood(ps) && |hs| == |ps| && Ended(ps) && Play(ps, []) == Expand(closed, []) && pad < 8
    requires Same(ByteFields(bytes), Framed(hs, ps) + [Field(0, pad)] + ByteFields(trailer))
    ensures SunkAll(bytes, hs, ps, trailer, closed)
  {
    hide Good, Ended, Framed, Same;
  }

  lemma WholeEnd(bytes: seq<Byte>, cc: nat, m: nat, fs: seq<Field>, trailer: seq<Byte>)
    requires Settled(bytes, cc, m, fs + (PadFields(Len(fs)) + ByteFields(trailer))) && m < 8
    ensures m == 0 && cc == 0
  {
    hide *;
    var pad, t := PadFields(Len(fs)), ByteFields(trailer);
    SettledLen(bytes, cc, m, fs + (pad + t));
    PadIs(Len(fs));
    Append(fs, pad + t);
    Append(pad, t);
    ByteFieldsLen(trailer);
    WholeCount(|bytes|, m, Len(fs) + Len(pad), |trailer|);
    NoneLeft(bytes, cc, fs + (pad + t));
  }

  lemma NoneLeft(bytes: seq<Byte>, cc: nat, fs: seq<Field>)
    requires Settled(bytes, cc, 0, fs)
    ensures cc == 0
  {
    hide Len, ByteFields;
  }

  lemma WholeCount(k: nat, m: nat, l: nat, t: nat)
    requires 8 * k + m == l + 8 * t && m < 8 && l % 8 == 0
    ensures m == 0
  {
  }

  lemma EndIsWhole(bytes: seq<Byte>, cc: nat, fs: seq<Field>, l: nat, trailer: seq<Byte>)
    requires cc == 0 && Settled(bytes, cc, 0, fs + (PadFields(l) + ByteFields(trailer)))
    ensures Same(ByteFields(bytes), fs + [Field(0, if l % 8 == 0 then 0 else 8 - l % 8)] + ByteFields(trailer))
  {
    var pad: nat := if l % 8 == 0 then 0 else 8 - l % 8;
    SettledIs(bytes, cc, 0, fs + (PadFields(l) + ByteFields(trailer)));
    EmptyField(ByteFields(bytes));
    EmptyField(fs);
    PadIs(l);
    hide *;
    var t := ByteFields(trailer);
    DynamicHeader.Regroup(fs, PadFields(l), t);
    SameSymmetric(ByteFields(bytes) + [Field(0, 0)], ByteFields(bytes));
    SameTransitive(ByteFields(bytes), ByteFields(bytes) + [Field(0, 0)], fs + PadFields(l) + t);
    if l % 8 == 0 {
      assert fs + [] == fs;
      SameSymmetric(fs + [Field(0, 0)], fs);
      SameAppend(fs, fs + [Field(0, 0)], t);
      SameTransitive(ByteFields(bytes), fs + t, fs + [Field(0, pad)] + t);
    }
  }

  /** One more block and the empty block of a sync or full flush. */
  lemma SunkFlushed(bytes: seq<Byte>, bb: nat, n: nat, hs: seq<bool>, ps: seq<Piece>, closed: seq<Token>, h: bool,
                    p: Piece, ts: seq<Token>, flush: Flush, trailer: seq<Byte>, more: seq<Byte>, cc: nat, m: nat)
    requires Sunk(bytes, bb, n, hs, ps, closed) && Good(p) && !Stops(p) && m < 8 && flush != NoFlush && flush != Finish
    requires var gs := HeadFields(h) + PieceFields(p, n);
             Settled(more, cc, m, [Field(bb, n)] + gs + MarkerFields(flush, trailer, Len([Field(bb, n)] + gs)))
    requires PlayOne(p, Expand(closed, []).value) == Expand(closed + ts, []) && Expand(closed + ts, []).Some?
    ensures Sunk(bytes + more, cc, m, hs + [h] + [false], ps + [p] + [Raw(false, [])], closed + ts)
  {
    hide *;
    var e, gs := Raw(false, []), HeadFields(h) + PieceFields(p, n);
    var l := Len([Field(bb, n)] + gs);
    EmptyIsGood();
    SunkIs(bytes, bb, n, hs, ps, closed);
    FramedMore(bytes, bb, n, hs, ps, h, p);
    FramedEmpty(bytes, bb, n, hs, ps, h, p, flush, trailer, l);
    DynamicHeader.Regroup([Field(bb, n)], gs, MarkerFields(flush, trailer, l));
    Join(bytes, bb, n, Framed(hs, ps), more, cc, m, gs + MarkerFields(flush, trailer, l));
    DynamicHeader.Regroup(Framed(hs, ps), gs, MarkerFields(flush, trailer, l));
    PlaySnoc(ps, p, []);
    PlaySnoc(ps + [p], e, []);
    PlayEmpty(Expand(closed + ts, []).value);
    NoneFinal(ps, p);
    NoneFinal(ps + [p], e);
    NowSunk(bytes + more, cc, m, hs + [h] + [false], ps + [p] + [e], closed + ts);
  }

  /** What the bytes and blocks are after a flush. */
  lemma SunkNext(bytes: seq<Byte>, bb: nat, n: nat, hs: seq<bool>, ps: seq<Piece>, closed: seq<Token>, h: bool,
                 p: Piece, ts: seq<Token>, flush: Flush, trailer: seq<Byte>, more: seq<Byte>, cc: nat, m: nat)
    requires Sunk(bytes, bb, n, hs, ps, closed) && Good(p) && m < 8 && p.final == (flush == Finish) && !p.Rejected?
    requires var fs := [Field(bb, n)] + (HeadFields(h) + PieceFields(p, n));
             Settled(more, cc, m, fs + MarkerFields(flush, trailer, Len(fs)))
    requires PlayOne(p, Expand(closed, []).value) == Expand(closed + ts, []) && Expand(closed + ts, []).Some?
    ensures flush == NoFlush ==> Sunk(bytes + more, cc, m, hs + [h], ps + [p], closed + ts)
    ensures flush == Finish ==> SunkAll(bytes + more, hs + [h], ps + [p], trailer, closed + ts)
    ensures flush != NoFlush && flush != Finish ==>
              Sunk(bytes + more, cc, m, hs + [h] + [false], ps + [p] + [Raw(false, [])], closed + ts)
  {
    assert Stops(p) <==> flush == Finish;
    hide *;
    MarkerIs(flush, trailer, [Field(bb, n)] + (HeadFields(h) + PieceFields(p, n)));
    if flush == NoFlush {
      SunkMore(bytes, bb, n, hs, ps, closed, h, p, ts, more, cc, m);
    } else if flush == Finish {
      SunkLast(bytes, bb, n, hs, ps, closed, h, p, ts, trailer, more, cc, m);
    } else {
      SunkFlushed(bytes, bb, n, hs, ps, closed, h, p, ts, flush, trailer, more, cc, m);
    }
  }

  lemma PlayEmpty(o: seq<Byte>)
    ensures PlayOne(Raw(false, []), o) == Some(o) && !Stops(Raw(false, []))
  {
    assert o + [] == o;
  }

  lemma FramedEmpty(bytes: seq<Byte>, bb: nat, n: nat, hs: seq<bool>, ps: seq<Piece>, h: bool, p: Piece, flush: Flush,
                    trailer: seq<Byte>, l: nat)
    requires AllGood(ps + [p]) && AllGood(ps) && |hs| == |ps| && Good(p) && n < 8
             && Settled(bytes, bb, n, Framed(hs, ps))
    requires var gs := HeadFields(h) + PieceFields(p, n);
             l == Len([Field(bb, n)] + gs) && Framed(hs + [h], ps + [p]) == Framed(hs, ps) + gs
    requires flush != NoFlush && flush != Finish
    ensures AllGood(ps + [p] + [Raw(false, [])])
    ensures Framed(hs + [h] + [false], ps + [p] + [Raw(false, [])])
            == Framed(hs + [h], ps + [p]) + MarkerFields(flush, trailer, l)
  {
    hide *;
    MarkerOf(flush, trailer, l);
    SameOffset(bytes, bb, n, Framed(hs, ps), HeadFields(h) + PieceFields(p, n), l);
    FramedSnoc(hs + [h], ps + [p], false, Raw(false, []));
    PieceAt(Raw(false, []), l, Len(Framed(hs + [h], ps + [p])));
    assert [] + MarkerFields(flush, trailer, l) == MarkerFields(flush, trailer, l);
  }

  lemma SameOffset(bytes: seq<Byte>, bb: nat, n: nat, fs: seq<Field>, gs: seq<Field>, l: nat)
    requires Settled(bytes, bb, n, fs) && l == Len([Field(bb, n)] + gs)
    ensures l % 8 == Len(fs + gs) % 8
  {
    hide *;
    SettledLen(bytes, bb, n, fs);
    Append(fs, gs);
    Append([Field(bb, n)], gs);
    Single(Field(bb, n));
    EightMore(|bytes|, l);
  }

  lemma MarkerOf(flush: Flush, trailer: seq<Byte>, at: nat)
    requires flush != NoFlush && flush != Finish
    ensures Good(Raw(false, [])) && MarkerFields(flush, trailer, at) == PieceFields(Raw(false, []), at)
  {
    hide PieceFields;
  }

  /** What fits has not been dropped. */
  lemma NothingDropped(out: Output, fs: seq<Field>)
    requires out.Valid(fs) && Len(fs) < 8 * (out.end + 1)
    ensures out.pos <= out.buf.Length && out.bitsIn < 8 && Settled(out.buf[..out.pos], out.bitBuffer, out.bitsIn, fs)
  {
    assert out.buf[..][..out.pos] == out.buf[..out.pos];
    hide Settled, Len;
  }
}
