/** A whole compressed stream, and the decompressor's loop that reads it. */
module Blocks {
  // Blocks carry a final bit and are coded or raw; Play says what they stand for. A rejected block stands for nothing:
  // its type is the reserved one, or it is raw and its length is not followed by the complement.

  import opened Arith
  import opened Bits
  import opened Wrappers
  import opened BitStream
  import opened Tokens
  import opened LzCodes
  import opened BitEmitter
  import opened BlockForm
  import opened InflateBlock
  import DynamicHeader

  datatype Piece =
    | Coded(final: bool, form: Form, tb: Tables, ts: seq<Token>)
    | Raw(final: bool, bytes: seq<Byte>)
    | Rejected(final: bool, why: Rejection)

  datatype Rejection = ReservedType | WrongCheck(padding: nat, len: nat, check: nat)

  ghost predicate Good(p: Piece) {
    match p
    case Coded(final, form, tb, ts) => Block(form, tb, ts)
    case Raw(final, bytes) => |bytes| < 0x1_0000
    case Rejected(final, ReservedType) => true
    case Rejected(final, WrongCheck(z, n, c)) => n < 0x1_0000 && c < 0x1_0000 && c != 0xFFFF - n
  }

  /** Zero bits up to the next byte boundary. */
  function PadFields(at: nat): seq<Field> {
    if at % 8 == 0 then [] else [Field(0, 8 - at % 8)]
  }

  /** Any bits up to the next byte boundary. */
  function AnyFields(z: nat, at: nat): seq<Field> {
    if at % 8 == 0 then [] else [Field(Low(z, 8 - at % 8), 8 - at % 8)]
  }

  lemma ZeroPadding(at: nat)
    ensures AnyFields(0, at) == PadFields(at)
  {
    if at % 8 != 0 { Small(0, 8 - at % 8); }
  }

  /** A raw block behind its type: padding, the length, its complement, the bytes (section 3.2.4 of RFC 1951). */
  function RawFields(bytes: seq<Byte>, at: nat): seq<Field>
    requires |bytes| < 0x1_0000
  {
    PadFields(at) + ([Field(|bytes|, 16)] + ([Field(0xFFFF - |bytes|, 16)] + ByteFields(bytes)))
  }

  function FinalBit(p: Piece): nat { if p.final then 1 else 0 }

  /** A block that starts at bit `at`. */
  ghost function PieceFields(p: Piece, at: nat): seq<Field>
    requires Good(p)
  {
    [Field(FinalBit(p), 1)] +
    match p
    case Coded(final, form, tb, ts) => BlockStream(form, tb, ts)
    case Raw(final, bytes) => [Field(0, 2)] + RawFields(bytes, at + 3)
    case Rejected(final, ReservedType) => [Field(3, 2)]
    case Rejected(final, WrongCheck(z, n, c)) => [Field(0, 2)] + WrongFields(z, n, c, at + 3)
  }

  /** A length that is not followed by its complement, behind padding of any value. */
  function WrongFields(z: nat, n: nat, c: nat, at: nat): seq<Field> {
    AnyFields(z, at) + ([Field(n, 16)] + [Field(c, 16)])
  }

  ghost predicate AllGood(ps: seq<Piece>) {
    forall i :: 0 <= i < |ps| ==> Good(ps[i])
  }

  ghost function Stream(ps: seq<Piece>, at: nat): seq<Field>
    requires AllGood(ps)
  {
    if ps == [] then []
    else PieceFields(ps[0], at) + Stream(ps[1..], at + Len(PieceFields(ps[0], at)))
  }

  lemma NoLen()
    ensures Len([]) == 0
  {
  }

  lemma {:induction false} StreamSnoc(ps: seq<Piece>, p: Piece, at: nat)
    requires AllGood(ps) && Good(p)
    ensures AllGood(ps + [p]) && Stream(ps + [p], at) == Stream(ps, at) + PieceFields(p, at + Len(Stream(ps, at)))
  {
    hide PieceFields, Good, Len;
    if ps == [] {
      NoLen();
      assert ([] + [p])[1..] == [] && [] + [p] == [p];
      assert Stream([p], at) == PieceFields(p, at) + Stream([], at + Len(PieceFields(p, at)));
    } else {
      var f := PieceFields(ps[0], at);
      assert (ps + [p])[1..] == ps[1..] + [p] && (ps + [p])[0] == ps[0];
      StreamSnoc(ps[1..], p, at + Len(f));
      Append(f, Stream(ps[1..], at + Len(f)));
    }
  }

  /** What blocks stand for behind the bytes o; None if a match reaches back too far or a block is rejected. */
  ghost function Play(ps: seq<Piece>, o: seq<Byte>): Option<seq<Byte>>
    decreases |ps|
  {
    if ps == [] then Some(o)
    else match ps[0]
      case Coded(final, form, tb, ts) => if Expand(ts, o).None? then None else Play(ps[1..], Expand(ts, o).value)
      case Raw(final, bytes) => Play(ps[1..], o + bytes)
      case Rejected(final, why) => None
  }

  ghost function PlayOne(p: Piece, o: seq<Byte>): Option<seq<Byte>> {
    match p
    case Coded(final, form, tb, ts) => Expand(ts, o)
    case Raw(final, bytes) => Some(o + bytes)
    case Rejected(final, why) => None
  }

  lemma {:induction false} PlaySnoc(ps: seq<Piece>, p: Piece, o: seq<Byte>)
    requires Play(ps, o).Some?
    ensures Play(ps + [p], o) == PlayOne(p, Play(ps, o).value)
    decreases |ps|
  {
    if ps == [] {
      assert [] + [p] == [p] && [p][1..] == [];
    } else {
      assert (ps + [p])[1..] == ps[1..] + [p] && (ps + [p])[0] == ps[0];
      PlaySnoc(ps[1..], p, PlayOne(ps[0], o).value);
    }
  }

  /** What comes out of one block: all of it, or what is before a match that reaches back too far. */
  ghost function PlayedOne(p: Piece, o: seq<Byte>): (r: seq<Byte>)
    ensures o <= r
  {
    match p
    case Coded(final, form, tb, ts) => Delivered(ts, o)
    case Raw(final, bytes) => o + bytes
    case Rejected(final, why) => o
  }

  /** What comes out of the blocks behind the bytes o, up to where the decompressor has to give up. */
  ghost function Played(ps: seq<Piece>, o: seq<Byte>): (r: seq<Byte>)
    ensures o <= r
    decreases |ps|
  {
    if ps == [] then o
    else if PlayOne(ps[0], o).None? then PlayedOne(ps[0], o)
    else PlayedOneIs(ps[0], o); Played(ps[1..], PlayOne(ps[0], o).value)
  }

  lemma PlayedOneIs(p: Piece, o: seq<Byte>)
    requires PlayOne(p, o).Some?
    ensures PlayedOne(p, o) == PlayOne(p, o).value
  {
    if p.Coded? { DeliveredIs(p.ts, o); }
  }

  /** Where the decompressor does not give up, it is all of what the blocks stand for. */
  lemma {:induction false} PlayedIs(ps: seq<Piece>, o: seq<Byte>)
    requires Play(ps, o).Some?
    ensures Played(ps, o) == Play(ps, o).value
    decreases |ps|
  {
    if ps != [] { PlayedIs(ps[1..], PlayOne(ps[0], o).value); }
  }

  /** Behind blocks that stand for something, one more. */
  lemma {:induction false} PlayedSnoc(ps: seq<Piece>, p: Piece, o: seq<Byte>)
    requires Play(ps, o).Some?
    ensures Played(ps + [p], o) == PlayedOne(p, Play(ps, o).value)
    decreases |ps|
  {
    if ps == [] {
      assert [] + [p] == [p] && [p][1..] == [];
      if PlayOne(p, o).Some? { PlayedOneIs(p, o); }
    } else {
      assert (ps + [p])[1..] == ps[1..] + [p] && (ps + [p])[0] == ps[0];
      PlayedSnoc(ps[1..], p, PlayOne(ps[0], o).value);
    }
  }

  /** Behind which blocks the decompressor stops. */
  predicate Stops(p: Piece) {
    p.final || p.Rejected?
  }

  /** The decompressor stops at the last block and at none before it. */
  ghost predicate Ended(ps: seq<Piece>) {
    ps != [] && forall i :: 0 <= i < |ps| ==> (Stops(ps[i]) <==> i == |ps| - 1)
  }

  // ----- the decompressor

  lemma UnreadSame(x: Input, fs: seq<Field>, gs: seq<Field>, rest: Input)
    requires Unread(x, fs, rest) && Same(fs, gs)
    ensures Unread(x, gs, rest)
  {
  }

  function TypeOf(p: Piece): nat {
    match p
    case Raw(_, _) => 0
    case Coded(_, Static, _, _) => 1
    case Coded(_, Dynamic(_), _, _) => 2
    case Rejected(_, ReservedType) => 3
    case Rejected(_, WrongCheck(_, _, _)) => 0
  }

  /** What follows the final bit and the type. */
  ghost function Body(p: Piece, at: nat): seq<Field>
    requires Good(p)
  {
    match p
    case Coded(final, form, tb, ts) =>
      BlockIs(form, tb, ts);
      (if form.Static? then [] else DynamicHeader.HeaderFields(form.hd)) + BlockFields(tb, ts)
    case Raw(final, bytes) => RawFields(bytes, at + 3)
    case Rejected(final, ReservedType) => []
    case Rejected(final, WrongCheck(z, n, c)) => WrongFields(z, n, c, at + 3)
  }

  lemma PieceParts(p: Piece, at: nat)
    requires Good(p)
    ensures PieceFields(p, at) == [Field(FinalBit(p), 1)] + ([Field(TypeOf(p), 2)] + Body(p, at))
  {
    if p.Coded? {
      CodedParts(p, at);
    } else {
      hide RawFields, WrongFields;
      if p.Rejected? { assert [Field(3, 2)] + [] == [Field(3, 2)]; }
    }
  }

  lemma CodedParts(p: Piece, at: nat)
    requires Good(p) && p.Coded?
    ensures PieceFields(p, at) == [Field(FinalBit(p), 1)] + ([Field(TypeOf(p), 2)] + Body(p, at))
  {
    var Coded(final, form, tb, ts) := p;
    BlockIs(form, tb, ts);
    StreamParts(form, tb, ts);
    hide BlockFields, DynamicHeader.HeaderFields, BlockStream, Block;
    if form.Static? {
      assert [] + BlockFields(tb, ts) == BlockFields(tb, ts);
    } else {
      DynamicHeader.Regroup([Field(2, 2)], DynamicHeader.HeaderFields(form.hd), BlockFields(tb, ts));
    }
  }

  lemma ThreeBitField(f: nat, t: nat, tail: seq<Field>)
    requires f < 2 && t < 4
    ensures Same([Field(f, 1)] + ([Field(t, 2)] + tail), [Field(f + 2 * t, 3)] + tail) && f + 2 * t < Pow2(3)
  {
    assert Pow2(1) == 2 && Pow2(3) == 8;
    hide *;
    Merge(f, 1, t, 2);
    SameAppend([Field(f, 1), Field(t, 2)], [Field(f + t * Pow2(1), 1 + 2)], tail);
    assert [Field(f, 1)] + ([Field(t, 2)] + tail) == [Field(f, 1), Field(t, 2)] + tail;
  }

  /** The final bit and the type of the next block. */
  method ReadType(bitBuf: Input, ghost p: Piece, ghost at: nat, ghost fs: seq<Field>, ghost rest: Input)
    returns (final: nat, bitBuf': Input)
    requires Good(p) && Unread(bitBuf, PieceFields(p, at) + fs, rest)
    ensures final == FinalBit(p) + 2 * TypeOf(p) && Unread(bitBuf', Body(p, at) + fs, rest)
    ensures bitBuf'.count + 3 == bitBuf.count
  {
    hide *;
    TypeIsNext(bitBuf, p, at, fs, rest);
    final, bitBuf' := GetBits(bitBuf, 3, FinalBit(p) + 2 * TypeOf(p), Body(p, at) + fs, rest);
    UnreadCounts(bitBuf, [Field(FinalBit(p) + 2 * TypeOf(p), 3)], Body(p, at) + fs, bitBuf', rest);
    Single(Field(FinalBit(p) + 2 * TypeOf(p), 3));
  }

  lemma TypeIsNext(x: Input, p: Piece, at: nat, fs: seq<Field>, rest: Input)
    requires Good(p) && Unread(x, PieceFields(p, at) + fs, rest)
    ensures Unread(x, [Field(FinalBit(p) + 2 * TypeOf(p), 3)] + (Body(p, at) + fs), rest)
    ensures FinalBit(p) + 2 * TypeOf(p) < Pow2(3)
  {
    hide *;
    PieceParts(p, at);
    TypeBounds(p);
    DynamicHeader.Fields3([Field(FinalBit(p), 1)], [Field(TypeOf(p), 2)], Body(p, at), fs);
    ThreeBitField(FinalBit(p), TypeOf(p), Body(p, at) + fs);
    UnreadSame(x, PieceFields(p, at) + fs, [Field(FinalBit(p) + 2 * TypeOf(p), 3)] + (Body(p, at) + fs), rest);
  }

  lemma TypeBounds(p: Piece)
    ensures FinalBit(p) < 2 && TypeOf(p) < 4
    ensures TypeOf(p) == 0 <==> p.Raw? || (p.Rejected? && p.why.WrongCheck?)
    ensures TypeOf(p) == 3 <==> p.Rejected? && p.why.ReservedType?
    ensures TypeOf(p) == 1 <==> p.Coded? && p.form.Static?
    ensures FinalBit(p) == 1 <==> p.final
  {
  }

  lemma UnreadCounts(x: Input, fs: seq<Field>, gs: seq<Field>, y: Input, rest: Input)
    requires Unread(x, fs + gs, rest) && Unread(y, gs, rest)
    ensures x.count == y.count + Len(fs)
  {
    Append(fs, gs);
  }

  // ----- raw blocks

  /** The bits up to the byte boundary are skipped, whatever they are. */
  method SkipPadding(bitBuf: Input, ghost z: nat, ghost at: nat, ghost fs: seq<Field>, ghost rest: Input)
    returns (bitBuf': Input)
    requires Unread(bitBuf, AnyFields(z, at) + fs, rest) && (at + bitBuf.count) % 8 == 0
    ensures Unread(bitBuf', fs, rest)
  {
    bitBuf' := Skip(bitBuf, bitBuf.count % 8);
    PaddingBits(at, bitBuf.count);
    if at % 8 == 0 {
      NothingSkipped(bitBuf);
      assert [] + fs == fs;
    } else {
      TakeField(bitBuf, Field(Low(z, 8 - at % 8), 8 - at % 8), fs, rest);
    }
  }

  lemma PaddingBits(at: nat, count: nat)
    requires (at + count) % 8 == 0
    ensures count % 8 == if at % 8 == 0 then 0 else 8 - at % 8
  {
  }

  lemma NothingSkipped(x: Input)
    ensures Skip(x, 0) == x
  {
    ShrNone(x.bits);
  }

  lemma TwoBytes(n: nat, tail: seq<Field>)
    requires n < 0x1_0000
    ensures Same([Field(n, 16)] + tail, [Field(n % 256, 8)] + ([Field(n / 256, 8)] + tail))
    ensures n % 256 < Pow2(8) && n / 256 < Pow2(8)
  {
    Pow2Values();
    assert Low(n, 8) == n % 256 && Shr(n, 8) == n / 256;
    hide *;
    Cut(n, 16, 8);
    SameAppend([Field(n, 16)], [Field(Low(n, 8), 8), Field(Shr(n, 8), 8)], tail);
    assert [Field(n % 256, 8)] + ([Field(n / 256, 8)] + tail) == [Field(n % 256, 8), Field(n / 256, 8)] + tail;
  }

  /** Two bytes of the raw header, as one number. */
  method ReadWord(bitBuf: Input, ghost n: nat, ghost fs: seq<Field>, ghost rest: Input)
    returns (word: nat, bitBuf': Input)
    requires n < 0x1_0000 && Unread(bitBuf, [Field(n, 16)] + fs, rest)
    ensures word == n && Unread(bitBuf', fs, rest)
  {
    TwoBytes(n, fs);
    WordBytes(n);
    hide *;
    UnreadSame(bitBuf, [Field(n, 16)] + fs, [Field(n % 256, 8)] + ([Field(n / 256, 8)] + fs), rest);
    var lo, hi;
    lo, bitBuf' := GetBits(bitBuf, 8, n % 256, [Field(n / 256, 8)] + fs, rest);
    hi, bitBuf' := GetBits(bitBuf', 8, n / 256, fs, rest);
    word := Or(lo, hi * 256);
  }

  lemma WordBytes(n: nat)
    ensures 0 <= n / 256 && Or(n % 256, n / 256 * 256) == n
  {
    Pow2Values();
    OrField(n % 256, n / 256, 8);
  }

  /** Flipping the low k bits. */
  lemma {:induction false} XorOnes(n: nat, k: nat)
    requires n < Pow2(k)
    ensures Xor(n, Pow2(k) - 1) == Pow2(k) - 1 - n && Xor(Pow2(k) - 1, n) == Pow2(k) - 1 - n
  {
    if k > 0 {
      OnesHalved(k);
      XorOnes(n / 2, k - 1);
    }
  }

  lemma OnesHalved(k: nat)
    requires k > 0
    ensures Pow2(k) - 1 >= 1 && (Pow2(k) - 1) / 2 == Pow2(k - 1) - 1 && (Pow2(k) - 1) % 2 == 1
  {
  }

  /** The bytes still to be read. */
  lemma ByteIsNext(bytes: seq<Byte>, k: nat, fs: seq<Field>)
    requires k <= |bytes|
    ensures k == |bytes| ==> ByteFields(bytes[k..]) + fs == fs
    ensures k < |bytes| ==>
            ByteFields(bytes[k..]) + fs == [Field(bytes[k], 8)] + (ByteFields(bytes[k + 1..]) + fs)
                && bytes[k] < Pow2(8)
  {
    Pow2Values();
    if k < |bytes| {
      assert ByteFields(bytes[k..]) == [Field(bytes[k], 8)] + ByteFields(bytes[k + 1..]);
    }
  }

  /** The contents of a raw block. */
  method CopyRaw(bitBuf: Input, count: nat, out: array<Byte>, pos: nat, ghost bytes: seq<Byte>, ghost fs: seq<Field>,
                 ghost rest: Input)
    returns (status: Status, bitBuf': Input, pos': nat)
    requires count == |bytes| && pos <= out.Length && Unread(bitBuf, ByteFields(bytes) + fs, rest)
    modifies out
    ensures pos' <= out.Length && pos' == Min(pos + |bytes|, out.Length) && out[..pos'] <= old(out[..pos]) + bytes
    ensures status != Failed && (status == Done <==> pos + |bytes| <= out.Length)
    ensures status == Done ==> out[..pos'] == old(out[..pos]) + bytes && Unread(bitBuf', fs, rest)
  {
    hide *;
    bitBuf', pos' := bitBuf, pos;
    ghost var before, k: nat := out[..pos], 0;
    var counter: nat := count;
    assert bytes[0..] == bytes && before + bytes[..0] == before;
    while counter > 0
      invariant k + counter == |bytes| && pos' == pos + k <= out.Length && out[..pos'] == before + bytes[..k]
      invariant Unread(bitBuf', ByteFields(bytes[k..]) + fs, rest)
    {
      ByteIsNext(bytes, k, fs);
      var dist;
      dist, bitBuf' := GetBits(bitBuf', 8, bytes[k], ByteFields(bytes[k + 1..]) + fs, rest);
      if pos' >= out.Length {
        PartOf(before, bytes, k);
        MinIs(pos + |bytes|, out.Length);
        return HasMoreOutput, bitBuf', pos';
      }
      out[pos'] := dist;
      pos', counter, k := pos' + 1, counter - 1, k + 1;
      assert out[..pos'] == before + bytes[..k - 1] + [bytes[k - 1]];
      assert bytes[..k] == bytes[..k - 1] + [bytes[k - 1]];
    }
    ByteIsNext(bytes, k, fs);
    assert bytes[..k] == bytes;
    MinIs(pos + |bytes|, out.Length);
    status := Done;
  }

  lemma PartOf(before: seq<Byte>, bytes: seq<Byte>, k: nat)
    requires k <= |bytes|
    ensures before + bytes[..k] <= before + bytes
  {
  }

  lemma MinIs(a: nat, b: nat)
    ensures Min(a, b) <= b && (a <= b ==> Min(a, b) == a) && (a >= b ==> Min(a, b) == b)
  {
  }

  /** What a raw block has behind its type: its bytes only if the check is the complement of the length. */
  ghost function RawTail(n: nat, c: nat, bytes: seq<Byte>, fs: seq<Field>): seq<Field> {
    if c == 0xFFFF - n then ByteFields(bytes) + fs else fs
  }

  /** A raw block behind its type: its length must be followed by the complement, and then by so many bytes. */
  method InflateRaw(bitBuf: Input, out: array<Byte>, pos: nat, ghost z: nat, ghost n: nat, ghost c: nat,
                    ghost bytes: seq<Byte>, ghost at: nat, ghost fs: seq<Field>, ghost rest: Input)
    returns (status: Status, bitBuf': Input, pos': nat)
    requires n < 0x1_0000 && c < 0x1_0000 && pos <= out.Length && (at + bitBuf.count) % 8 == 0
    requires c == 0xFFFF - n ==> n == |bytes|
    requires Unread(bitBuf, AnyFields(z, at) + ([Field(n, 16)] + ([Field(c, 16)] + RawTail(n, c, bytes, fs))), rest)
    modifies out
    ensures status == Failed <==> c != 0xFFFF - n
    ensures pos' <= out.Length && pos' == (if c == 0xFFFF - n then Min(pos + |bytes|, out.Length) else pos)
            && out[..pos'] <= old(out[..pos]) + bytes
    ensures status == Done <==> c == 0xFFFF - n && pos + |bytes| <= out.Length
    ensures status == Done ==> out[..pos'] == old(out[..pos]) + bytes && Unread(bitBuf', fs, rest)
  {
    RawTailIs(n, c, bytes, fs);
    hide *;
    bitBuf' := SkipPadding(bitBuf, z, at, [Field(n, 16)] + ([Field(c, 16)] + RawTail(n, c, bytes, fs)), rest);
    var counter, check;
    counter, bitBuf' := ReadWord(bitBuf', n, [Field(c, 16)] + RawTail(n, c, bytes, fs), rest);
    check, bitBuf' := ReadWord(bitBuf', c, RawTail(n, c, bytes, fs), rest);
    CheckIs(n, c);
    if counter != Xor(0xFFFF, check) { return Failed, bitBuf', pos; }
    status, bitBuf', pos' := CopyRaw(bitBuf', counter, out, pos, bytes, fs, rest);
  }

  lemma RawTailIs(n: nat, c: nat, bytes: seq<Byte>, fs: seq<Field>)
    ensures c == 0xFFFF - n ==> RawTail(n, c, bytes, fs) == ByteFields(bytes) + fs
  {
  }

  lemma CheckIs(n: nat, c: nat)
    requires n < 0x1_0000 && c < 0x1_0000
    ensures n == Xor(0xFFFF, c) <==> c == 0xFFFF - n
  {
    hide *;
    Complement(0xFFFF - c);
  }

  lemma Complement(n: nat)
    requires n < 0x1_0000
    ensures Xor(0xFFFF, 0xFFFF - n) == n && Xor(n, 0xFFFF) == 0xFFFF - n
  {
    Pow2Values();
    XorOnes(0xFFFF - n, 16);
    XorOnes(n, 16);
  }

  // ----- the loop over the blocks

  lemma BodyIs(p: Piece, at: nat)
    requires Good(p)
    ensures p.Raw? ==> |p.bytes| < 0x1_0000 && Body(p, at) == RawFields(p.bytes, at + 3)
    ensures p.Rejected? && p.why.WrongCheck? ==>
            var WrongCheck(z, n, c) := p.why;
            n < 0x1_0000 && c < 0x1_0000 && c != 0xFFFF - n && Body(p, at) == WrongFields(z, n, c, at + 3)
    ensures p.Coded? ==>
            Block(p.form, p.tb, p.ts) && Writable(p.tb) && AllRecordable(p.ts)
                && (p.form.Dynamic? ==> DynamicHeader.Shaped(p.form.hd))
    ensures p.Coded? ==>
            Body(p, at)
                == (if p.form.Static? then [] else DynamicHeader.HeaderFields(p.form.hd)) + BlockFields(p.tb, p.ts)
  {
    if p.Coded? { BlockIs(p.form, p.tb, p.ts); }
    hide Block, BlockFields, DynamicHeader.HeaderFields, RawFields;
  }

  /** More input behind the fields: they are part of what is left. */
  lemma UnreadTail(x: Input, fs: seq<Field>, gs: seq<Field>, rest: Input) returns (mid: Input)
    requires Unread(x, fs + gs, rest)
    ensures Unread(x, fs, mid) && Unread(mid, gs, rest)
  {
    mid := Input(Val(gs) + rest.bits * Pow2(Len(gs)), Len(gs) + rest.count);
    Append(fs, gs);
    TailStep(x.bits, Val(fs), Val(gs), Len(fs), Len(gs), rest.bits);
  }

  lemma TailStep(x: nat, v: nat, w: nat, l: nat, m: nat, r: nat)
    requires x == v + w * Pow2(l) + r * Pow2(l + m)
    ensures x == v + (w + r * Pow2(m)) * Pow2(l)
  {
    hide *;
    Pow2Add(m, l);
    MulAssoc(r, Pow2(m), Pow2(l));
    DistributeRight(w, r * Pow2(m), Pow2(l));
  }

  /** One block: its bytes go behind the output so far, as far as there is room, or it is rejected: exactly if nothing
      can come out of it behind what there is room for. */
  method InflatePiece(bitBuf: Input, out: array<Byte>, pos: nat, ghost p: Piece, ghost at: nat, ghost fs: seq<Field>,
                      ghost rest: Input)
    returns (status: Status, final: bool, bitBuf': Input, pos': nat)
    requires Good(p) && pos <= out.Length && Unread(bitBuf, PieceFields(p, at) + fs, rest)
             && (at + bitBuf.count) % 8 == 0
    modifies out
    ensures final == p.final
    ensures pos' <= out.Length && (status == Done ==> Unread(bitBuf', fs, rest))
    ensures var o := old(out[..pos]); Outcome(status, PlayOne(p, o), PlayedOne(p, o), out.Length, out[..pos'])
  {
    TypeBounds(p);
    PlayOneIs(p, out[..pos]);
    hide *;
    var header;
    header, bitBuf' := ReadType(bitBuf, p, at, fs, rest);
    final := header % 2 == 1;
    var kind := header / 2;
    if kind == 0 {
      status, bitBuf', pos' := InflateRawPiece(bitBuf', out, pos, p, at, fs, rest);
    } else if kind == 3 {
      status, pos' := Failed, pos;
      RejectedOutcome(p, out[..pos], out.Length);
    } else {
      status, bitBuf', pos' := InflateCoded(kind == 1, bitBuf', out, pos, p, at, fs, rest);
    }
  }

  lemma RejectedOutcome(p: Piece, o: seq<Byte>, room: nat)
    requires p.Rejected? && |o| <= room
    ensures Outcome(Failed, PlayOne(p, o), PlayedOne(p, o), room, o)
  {
  }

  lemma RawOutcome(p: Piece, o: seq<Byte>, status: Status, room: nat, o': seq<Byte>, bytes: seq<Byte>)
    requires |o| <= room && ((p.Raw? && bytes == p.bytes) || p.Rejected?)
    requires o' <= o + bytes && |o'| == (if p.Raw? then Min(|o| + |bytes|, room) else |o|)
    requires (status == Failed <==> p.Rejected?) && (status == Done <==> p.Raw? && |o| + |bytes| <= room)
    ensures Outcome(status, PlayOne(p, o), PlayedOne(p, o), room, o')
  {
  }

  method InflateRawPiece(bitBuf: Input, out: array<Byte>, pos: nat, ghost p: Piece, ghost at: nat,
                         ghost fs: seq<Field>, ghost rest: Input)
    returns (status: Status, bitBuf': Input, pos': nat)
    requires Good(p) && (p.Raw? || (p.Rejected? && p.why.WrongCheck?)) && pos <= out.Length
    requires Unread(bitBuf, Body(p, at) + fs, rest) && (at + 3 + bitBuf.count) % 8 == 0
    modifies out
    ensures pos' <= out.Length && (status == Done ==> Unread(bitBuf', fs, rest))
    ensures var o := old(out[..pos]); Outcome(status, PlayOne(p, o), PlayedOne(p, o), out.Length, out[..pos'])
  {
    hide *;
    PlayOneIs(p, out[..pos]);
    ghost var z, n, c, bytes := RawBody(p, at, fs);
    status, bitBuf', pos' := InflateRaw(bitBuf, out, pos, z, n, c, bytes, at + 3, fs, rest);
    RawOutcome(p, old(out[..pos]), status, out.Length, out[..pos'], bytes);
  }

  method InflateCoded(isStatic: bool, bitBuf: Input, out: array<Byte>, pos: nat, ghost p: Piece, ghost at: nat,
                      ghost fs: seq<Field>, ghost rest: Input)
    returns (status: Status, bitBuf': Input, pos': nat)
    requires Good(p) && p.Coded? && isStatic == p.form.Static? && pos <= out.Length
             && Unread(bitBuf, Body(p, at) + fs, rest)
    modifies out
    ensures pos' <= out.Length && (status == Done ==> Unread(bitBuf', fs, rest))
    ensures var o := old(out[..pos]); Outcome(status, PlayOne(p, o), PlayedOne(p, o), out.Length, out[..pos'])
  {
    PlayOneIs(p, out[..pos]);
    BodyIs(p, at);
    hide *;
    ghost var mid := UnreadTail(bitBuf, Body(p, at), fs, rest);
    status, bitBuf', pos' := InflateCompressed(isStatic, bitBuf, out, pos, p.form, p.tb, p.ts, mid);
  }

  lemma RawBody(p: Piece, at: nat, fs: seq<Field>) returns (z: nat, n: nat, c: nat, bytes: seq<Byte>)
    requires Good(p) && (p.Raw? || (p.Rejected? && p.why.WrongCheck?))
    ensures n < 0x1_0000 && c < 0x1_0000 && (c == 0xFFFF - n <==> p.Raw?)
            && (p.Raw? ==> bytes == p.bytes && n == |bytes|)
    ensures Body(p, at) + fs == AnyFields(z, at + 3) + ([Field(n, 16)] + ([Field(c, 16)] + RawTail(n, c, bytes, fs)))
  {
    if p.Raw? {
      bytes := p.bytes;
      z, n, c := 0, |bytes|, 0xFFFF - |bytes|;
      ZeroPadding(at + 3);
    } else {
      bytes, z, n, c := [], p.why.padding, p.why.len, p.why.check;
    }
    hide ByteFields, PadFields, AnyFields;
  }

  lemma PlayOneIs(p: Piece, o: seq<Byte>)
    ensures p.Coded? ==> PlayOne(p, o) == Expand(p.ts, o) && PlayedOne(p, o) == Delivered(p.ts, o)
    ensures p.Raw? ==> PlayOne(p, o) == Some(o + p.bytes) && PlayedOne(p, o) == o + p.bytes
    ensures p.Rejected? ==> PlayOne(p, o) == None && PlayedOne(p, o) == o
  {
  }

  /** Where the loop stands: the blocks qs are still to be read. */
  ghost predicate Reading(x: Input, qs: seq<Piece>, at: nat, rest: Input) {
    AllGood(qs) && Ended(qs) && Unread(x, Stream(qs, at), rest) && (at + x.count) % 8 == 0
  }

  lemma NoStream(qs: seq<Piece>, at: nat)
    requires Ended(qs) && Stops(qs[0])
    ensures |qs| == 1 && AllGood(qs[1..]) && Stream(qs[1..], at) == []
  {
  }

  lemma ReadingIs(x: Input, qs: seq<Piece>, at: nat, rest: Input)
    requires Reading(x, qs, at, rest)
    ensures qs != [] && AllGood(qs) && AllGood(qs[1..]) && Ended(qs) && Good(qs[0]) && (at + x.count) % 8 == 0
    ensures Unread(x, PieceFields(qs[0], at) + Stream(qs[1..], at + Len(PieceFields(qs[0], at))), rest)
  {
    hide Unread, PieceFields, Good;
  }

  lemma NextReading(x: Input, qs: seq<Piece>, at: nat, f: seq<Field>, fs: seq<Field>, y: Input, rest: Input)
    requires AllGood(qs) && Ended(qs) && !Stops(qs[0]) && AllGood(qs[1..]) && fs == Stream(qs[1..], at + Len(f))
    requires Unread(x, f + fs, rest) && (at + x.count) % 8 == 0 && Unread(y, fs, rest)
    ensures |qs| > 1 && Reading(y, qs[1..], at + Len(f), rest)
  {
    hide *;
    UnreadCounts(x, f, fs, y, rest);
    EndedRest(qs);
    assert at + Len(f) + y.count == at + x.count;
    NowReading(y, qs[1..], at + Len(f), rest);
  }

  lemma EndedRest(qs: seq<Piece>)
    requires Ended(qs) && !Stops(qs[0])
    ensures |qs| > 1 && Ended(qs[1..])
  {
  }

  lemma StopsIf(p: Piece, o: seq<Byte>)
    ensures Stops(p) <==> p.final || p.Rejected?
    ensures p.Rejected? ==> PlayOne(p, o) == None
  {
  }

  /** What the loop is about: what the blocks qs stand for behind the output o, and what comes out of them. */
  ghost predicate Towards(qs: seq<Piece>, o: seq<Byte>, goal: Option<seq<Byte>>, all: seq<Byte>) {
    Play(qs, o) == goal && Played(qs, o) == all
  }

  lemma PlayStep(qs: seq<Piece>, o: seq<Byte>)
    requires qs != []
    ensures PlayOne(qs[0], o) == None ==> Play(qs, o) == None
    ensures PlayOne(qs[0], o).Some? ==> Play(qs, o) == Play(qs[1..], PlayOne(qs[0], o).value)
  {
  }

  lemma TowardsStep(qs: seq<Piece>, o: seq<Byte>, goal: Option<seq<Byte>>, all: seq<Byte>)
    requires qs != [] && Towards(qs, o, goal, all)
    ensures PlayOne(qs[0], o) == None ==> goal == None && all == PlayedOne(qs[0], o)
    ensures PlayOne(qs[0], o).Some? && |qs| == 1 ==> goal == PlayOne(qs[0], o)
    ensures PlayOne(qs[0], o).Some? && |qs| > 1 ==> Towards(qs[1..], PlayOne(qs[0], o).value, goal, all)
    ensures PlayOne(qs[0], o).Some? ==> PlayOne(qs[0], o).value == PlayedOne(qs[0], o)
    ensures PlayedOne(qs[0], o) <= all && (goal.Some? ==> goal == Some(all))
  {
    if PlayOne(qs[0], o).Some? {
      PlayedOneIs(qs[0], o);
      if |qs| == 1 { assert qs[1..] == []; }
    }
    PlayStep(qs, o);
    if goal.Some? { PlayedIs(qs, o); }
  }

  lemma TowardsIs(qs: seq<Piece>, o: seq<Byte>)
    ensures Towards(qs, o, Play(qs, o), Played(qs, o))
    ensures Play(qs, o).Some? ==> Play(qs, o) == Some(Played(qs, o))
  {
    if Play(qs, o).Some? { PlayedIs(qs, o); }
  }

  /** The outcome of one block, and of all of them if the decompressor stops behind it. */
  lemma OutcomeBehind(status: Status, qs: seq<Piece>, o: seq<Byte>, goal: Option<seq<Byte>>, all: seq<Byte>, room: nat,
                      o': seq<Byte>)
    requires qs != [] && Towards(qs, o, goal, all)
    requires Outcome(status, PlayOne(qs[0], o), PlayedOne(qs[0], o), room, o')
    ensures status != Done || |qs| == 1 ==> Outcome(status, goal, all, room, o')
    ensures status == Done ==> PlayOne(qs[0], o) == Some(o')
    ensures status == Done && |qs| > 1 ==> Towards(qs[1..], o', goal, all)
  {
    TowardsStep(qs, o, goal, all);
    if status == Done { assert o' == PlayedOne(qs[0], o); }
  }

  /** tinfl_decompress on a whole stream: it succeeds exactly if the blocks stand for something that fits into the
      output buffer, and then that is the output. It fails exactly if they stand for nothing, and what comes before the
      place where that shows fits. In any case the output is what comes before it, as far as there is room. */
  method Inflate(input: Input, out: array<Byte>, ghost ps: seq<Piece>, ghost rest: Input)
    returns (status: Status, bitBuf: Input, pos: nat)
    requires Reading(input, ps, 0, rest)
    modifies out
    ensures pos <= out.Length && (status == Done ==> bitBuf == rest)
    ensures Outcome(status, Play(ps, []), Played(ps, []), out.Length, out[..pos])
  {
    hide *;
    ghost var goal, all := Play(ps, []), Played(ps, []);
    TowardsIs(ps, []);
    bitBuf, pos := input, 0;
    ghost var qs, at: nat := ps, 0;
    assert out[..0] == [];
    while true
      invariant pos <= out.Length && Reading(bitBuf, qs, at, rest)
      invariant Towards(qs, out[..pos], goal, all)
      decreases |qs|
    {
      ReadingIs(bitBuf, qs, at, rest);
      ghost var x, f := bitBuf, PieceFields(qs[0], at);
      ghost var fs := Stream(qs[1..], at + Len(f));
      StopsIf(qs[0], out[..pos]);
      if Stops(qs[0]) { NoStream(qs, at + Len(f)); }
      ghost var o := out[..pos];
      var final;
      status, final, bitBuf, pos := InflatePiece(bitBuf, out, pos, qs[0], at, fs, rest);
      OutcomeBehind(status, qs, o, goal, all, out.Length, out[..pos]);
      if status != Done { return; }
      if final {
        InflateBlock.NoneLeft(bitBuf, rest);
        return;
      }
      NextReading(x, qs, at, f, fs, bitBuf, rest);
      at := at + Len(f);
      qs := qs[1..];
    }
  }

  /** Bytes as the decompressor sees them. */
  function InputOf(bytes: seq<Byte>): Input {
    Input(Val(ByteFields(bytes)), 8 * |bytes|)
  }

  /** Bytes that hold the stream of the blocks, and something behind it, can be read. */
  lemma BytesAreReading(bytes: seq<Byte>, ps: seq<Piece>, tail: seq<Field>)
    requires AllGood(ps) && Ended(ps) && Same(ByteFields(bytes), Stream(ps, 0) + tail)
    ensures Reading(InputOf(bytes), ps, 0, Input(Val(tail), Len(tail)))
  {
    hide *;
    InputIs(bytes, Stream(ps, 0), tail);
    NowReading(InputOf(bytes), ps, 0, Input(Val(tail), Len(tail)));
  }

  lemma NowReading(x: Input, ps: seq<Piece>, at: nat, rest: Input)
    requires AllGood(ps) && Ended(ps) && Unread(x, Stream(ps, at), rest) && (at + x.count) % 8 == 0
    ensures Reading(x, ps, at, rest)
  {
    hide Unread, Stream, Good;
  }

  lemma InputIs(bytes: seq<Byte>, fs: seq<Field>, tail: seq<Field>)
    requires Same(ByteFields(bytes), fs + tail)
    ensures Unread(InputOf(bytes), fs, Input(Val(tail), Len(tail))) && InputOf(bytes).count % 8 == 0
  {
    hide *;
    ByteFieldsLen(bytes);
    Append(fs, tail);
    SameValues(ByteFields(bytes), fs + tail);
    InputCounts(bytes);
    NowUnread(InputOf(bytes), fs, Input(Val(tail), Len(tail)));
  }

  lemma SameValues(fs: seq<Field>, gs: seq<Field>)
    requires Same(fs, gs)
    ensures Val(fs) == Val(gs) && Len(fs) == Len(gs)
  {
  }

  lemma InputCounts(bytes: seq<Byte>)
    ensures InputOf(bytes) == Input(Val(ByteFields(bytes)), 8 * |bytes|) && InputOf(bytes).count % 8 == 0
  {
  }

  lemma NowUnread(x: Input, fs: seq<Field>, rest: Input)
    requires x.bits == Val(fs) + rest.bits * Pow2(Len(fs)) && x.count == Len(fs) + rest.count
    ensures Unread(x, fs, rest)
  {
  }
}
