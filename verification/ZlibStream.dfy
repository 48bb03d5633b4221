/** Decompression of a stream with a zlib header and a checksum at its end. */
module ZlibStream {
  // tinfl_decompress with TINFL_FLAG_PARSE_ZLIB_HEADER, for one call with all of the input and an output buffer that
  // does not wrap around (sections 2.2 and 2.3 of RFC 1950).

  import opened Arith
  import opened Bits
  import opened Wrappers
  import opened BitStream
  import opened InflateBlock
  import opened Blocks
  import opened FlushBlock
  import Adler32
  import BitEmitter
  import LzCodes

  /** The check on the header: its check value, no preset dictionary, and the method is deflate. */
  predicate HeaderOk(cmf: Byte, flg: Byte) {
    (cmf as int * 256 + flg) % 31 == 0 && flg / 32 % 2 == 0 && cmf % 16 == 8
  }

  /** In the fields of section 2.2 of RFC 1950: the method is 8, no dictionary is preset, and the check bits make both
      bytes together a multiple of 31. */
  lemma HeaderFields(info: nat, cm: nat, level: nat, dict: nat, check: nat)
    requires info < 16 && cm < 16 && level < 4 && dict < 2 && check < 32
    ensures HeaderOk(info * 16 + cm, level * 64 + dict * 32 + check) <==>
            && cm == 8 && dict == 0
            && exists q: nat :: 256 * (info * 16 + cm) + (level * 64 + dict * 32 + check) == 31 * q
  {
    var cmf, flg := info * 16 + cm, level * 64 + dict * 32 + check;
    assert cmf % 16 == cm;
    assert flg / 32 % 2 == dict by { assert flg / 32 == 2 * level + dict; }
    Multiple(256 * cmf + flg);
  }

  lemma Multiple(x: nat)
    ensures x % 31 == 0 <==> exists q: nat :: x == 31 * q
  {
    assert x == 31 * (x / 31) + x % 31;
  }

  lemma HeadIsOk()
    ensures HeaderOk(ZLIB_CMF, ZLIB_FLG)
  {
  }

  /** Bytes that hold a field of eight bits first begin with it. */
  lemma FirstByte(bytes: seq<Byte>, x: Byte, fs: seq<Field>)
    requires Same(ByteFields(bytes), [Field(x, 8)] + fs)
    ensures bytes != [] && bytes[0] == x && Same(ByteFields(bytes[1..]), fs)
  {
    Pow2Values();
    ByteFieldsLen(bytes);
    Append([Field(x, 8)], fs);
    Single(Field(x, 8));
    assert ByteFields(bytes)[1..] == ByteFields(bytes[1..]);
    SameRest(bytes[0], Val(ByteFields(bytes[1..])), x, Val(fs));
  }

  lemma SameRest(a: Byte, v: nat, b: Byte, w: nat)
    requires a + v * 256 == b + w * 256
    ensures a == b && v == w
  {
  }

  lemma HeaderIsRead(bytes: seq<Byte>, fs: seq<Field>)
    requires Same(ByteFields(bytes), HeadFields(true) + fs)
    ensures |bytes| >= 2 && bytes[0] == 0x78 && bytes[1] == 0x01
    ensures HeaderOk(bytes[0], bytes[1]) && Same(ByteFields(bytes[2..]), fs)
  {
    HeadIsOk();
    var f, g := [Field(ZLIB_CMF, 8)], [Field(ZLIB_FLG, 8)];
    assert HeadFields(true) + fs == f + (g + fs);
    hide *;
    FirstByte(bytes, ZLIB_CMF, g + fs);
    FirstByte(bytes[1..], ZLIB_FLG, fs);
    assert bytes[1..][1..] == bytes[2..] && bytes[1..][0] == bytes[1];
  }

  /** The checksum that four bytes hold. */
  function FromBigEndian(t: seq<Byte>): nat
    requires |t| == 4
  {
    ((t[0] as int * 0x100 + t[1]) * 0x100 + t[2]) * 0x100 + t[3]
  }

  lemma BigEndianBack(a: nat)
    requires a < 0x1_0000_0000
    ensures FromBigEndian(BigEndian(a)) == a
  {
    var d3, d2, d1, d0 := Digits(a);
    hide BigEndian;
  }

  /** The 32-bit word after i of the four bytes: it starts from 1, which the fourth byte shifts out. */
  function ShiftedIn(t: seq<Byte>, i: nat): nat
    requires |t| == 4
  {
    if i == 0 then 1 else if i == 1 then 0x100 + t[0] else if i == 2 then (0x100 + t[0]) * 0x100 + t[1]
    else if i == 3 then ((0x100 + t[0]) * 0x100 + t[1]) * 0x100 + t[2] else FromBigEndian(t)
  }

  lemma ShiftIn(t: seq<Byte>, i: nat)
    requires |t| == 4 && i < 4
    ensures (ShiftedIn(t, i) * 0x100 + t[i]) % 0x1_0000_0000 == ShiftedIn(t, i + 1)
  {
  }

  lemma ShiftedInEnds(t: seq<Byte>)
    requires |t| == 4
    ensures ShiftedIn(t, 0) == 1 && ShiftedIn(t, 4) == FromBigEndian(t)
  {
  }

  lemma NextTrailerByte(t: seq<Byte>, i: nat)
    requires i < |t|
    ensures ByteFields(t[i..]) == [Field(t[i], 8)] + ByteFields(t[i + 1..]) && t[i] < Pow2(8)
  {
    Pow2Values();
  }

  /** The four bytes of the checksum, if there are so many. */
  method ReadTrailer(bitBuf: Input, ghost t: seq<Byte>) returns (ok: bool, zAdler32: nat)
    requires Unread(bitBuf, ByteFields(t), Input(0, 0))
    ensures ok <==> |t| >= 4
    ensures ok ==> zAdler32 == FromBigEndian(t[..4])
  {
    hide *;
    ok, zAdler32 := true, 1;
    var x := bitBuf;
    assert t[0..] == t;
    ghost var w: seq<Byte> := if |t| >= 4 then t[..4] else [0, 0, 0, 0];
    ShiftedInEnds(w);
    for counter := 0 to 4
      invariant counter <= |t| && Unread(x, ByteFields(t[counter..]), Input(0, 0))
      invariant |t| >= 4 ==> zAdler32 == ShiftedIn(w, counter)
    {
      BytesLeft(x, t[counter..]);
      if x.count < 8 { return false, zAdler32; }
      NextTrailerByte(t, counter);
      var s;
      s, x := GetBits(x, 8, t[counter], ByteFields(t[counter + 1..]), Input(0, 0));
      ShiftIn(w, counter);
      zAdler32 := (zAdler32 * 0x100 + s) % 0x1_0000_0000;
    }
  }

  lemma BytesLeft(x: Input, t: seq<Byte>)
    requires Unread(x, ByteFields(t), Input(0, 0))
    ensures x.count == 8 * |t|
  {
    ByteFieldsLen(t);
  }

  /** At the end of the last block: the padding is skipped. */
  method EndPadding(bitBuf: Input, ghost z: nat, ghost pad: nat, ghost t: seq<Byte>) returns (bitBuf': Input)
    requires pad < 8 && z < Pow2(pad)
    requires var tail := [Field(z, pad)] + ByteFields(t); bitBuf == Input(Val(tail), Len(tail))
    ensures Unread(bitBuf', ByteFields(t), Input(0, 0))
  {
    ghost var at: nat := if pad == 0 then 0 else 8 - pad;
    TailIsUnread(bitBuf, z, pad, t, at);
    hide *;
    bitBuf' := SkipPadding(bitBuf, z, at, ByteFields(t), Input(0, 0));
  }

  lemma TailIsUnread(x: Input, z: nat, pad: nat, t: seq<Byte>, at: nat)
    requires pad < 8 && z < Pow2(pad) && at == if pad == 0 then 0 else 8 - pad
    requires var tail := [Field(z, pad)] + ByteFields(t); x == Input(Val(tail), Len(tail))
    ensures Unread(x, AnyFields(z, at) + ByteFields(t), Input(0, 0)) && (at + x.count) % 8 == 0
  {
    AnyIs(z, pad, at);
    hide *;
    var f, b := [Field(z, pad)], ByteFields(t);
    AllUnread(f + b);
    Append(f, b);
    Single(Field(z, pad));
    ByteFieldsLen(t);
    if pad == 0 {
      BitEmitter.EmptyField([]);
      assert [] + f == f;
      SameAppend(f, [], b);
      UnreadSame(x, f + b, [] + b, Input(0, 0));
    }
  }

  lemma AnyIs(z: nat, pad: nat, at: nat)
    requires pad < 8 && z < Pow2(pad) && at == if pad == 0 then 0 else 8 - pad
    ensures AnyFields(z, at) == if pad == 0 then [] else [Field(z, pad)]
    ensures pad == 0 ==> z == 0
  {
    Small(z, pad);
    hide Pow2;
    if pad > 0 { assert at == 8 - pad && at % 8 == at; }
  }

  lemma AllUnread(fs: seq<Field>)
    ensures Unread(Input(Val(fs), Len(fs)), fs, Input(0, 0))
  {
  }

  /** The bytes behind a good header: blocks up to a final or rejected one, bits up to the byte boundary, and bytes
      t. */
  ghost predicate Body(bytes: seq<Byte>, ps: seq<Piece>, z: nat, pad: nat, t: seq<Byte>) {
    && AllGood(ps) && Ended(ps) && pad < 8 && z < Pow2(pad)
    && Same(ByteFields(bytes), Stream(ps, 0) + ([Field(z, pad)] + ByteFields(t)))
  }

  lemma IsBody(bytes: seq<Byte>, ps: seq<Piece>, z: nat, pad: nat, t: seq<Byte>)
    requires AllGood(ps) && Ended(ps) && pad < 8 && z < Pow2(pad)
    requires Same(ByteFields(bytes), Stream(ps, 0) + ([Field(z, pad)] + ByteFields(t)))
    ensures Body(bytes, ps, z, pad, t)
  {
  }

  lemma BodyIsReading(bytes: seq<Byte>, ps: seq<Piece>, z: nat, pad: nat, t: seq<Byte>)
    requires Body(bytes, ps, z, pad, t)
    ensures pad < 8 && z < Pow2(pad)
    ensures var tail := [Field(z, pad)] + ByteFields(t); Reading(InputOf(bytes), ps, 0, Input(Val(tail), Len(tail)))
  {
    hide Same, Stream, Good, Ended, Reading;
    BytesAreReading(bytes, ps, [Field(z, pad)] + ByteFields(t));
  }

  /** How it ends: like the blocks, or because of what is around them. */
  datatype ZlibStatus = Inflated(status: Status) | CannotMakeProgress | Adler32Mismatch

  /** Whether the blocks can be played into a buffer of the given size. */
  ghost predicate Plays(ps: seq<Piece>, room: nat) {
    Play(ps, []).Some? && |Play(ps, []).value| <= room
  }

  /** tinfl_decompress with a zlib header: it is done exactly if the header passes the check, the blocks stand for
      something that fits, there are four bytes behind them, and the checksum of the output is what they hold. Each
      other status has its own condition. */
  method InflateZlib(bytes: seq<Byte>, out: array<Byte>, ghost ps: seq<Piece>, ghost z: nat, ghost pad: nat,
                     ghost t: seq<Byte>)
    returns (status: ZlibStatus, size: nat)
    requires |bytes| >= 2 && HeaderOk(bytes[0], bytes[1]) ==> Body(bytes[2..], ps, z, pad, t)
    modifies out
    ensures size <= out.Length
    ensures |bytes| < 2 ==> status == CannotMakeProgress
    ensures |bytes| >= 2 && !HeaderOk(bytes[0], bytes[1]) ==> status == Inflated(Failed)
    ensures |bytes| >= 2 && HeaderOk(bytes[0], bytes[1]) ==>
              && (status == Inflated(Done) <==>
                  Plays(ps, out.Length) && |t| >= 4 && FromBigEndian(t[..4]) == Adler32.Checksum(1, Play(ps, []).value))
              && (status == Adler32Mismatch <==>
                  Plays(ps, out.Length) && |t| >= 4 && FromBigEndian(t[..4]) != Adler32.Checksum(1, Play(ps, []).value))
              && (status == CannotMakeProgress <==> Plays(ps, out.Length) && |t| < 4)
              && (status == Inflated(Failed) <==> Play(ps, []) == None && |Played(ps, [])| <= out.Length)
              && (status == Inflated(HasMoreOutput) <==> |Played(ps, [])| > out.Length)
              && size == LzCodes.Min(|Played(ps, [])|, out.Length) && out[..size] <= Played(ps, [])
    ensures status == Inflated(Done) ==> Play(ps, []) == Some(out[..size])
  {
    size := 0;
    if |bytes| < 2 { return CannotMakeProgress, size; }
    if !HeaderOk(bytes[0], bytes[1]) { return Inflated(Failed), size; }
    PlaysIs(ps, out.Length);
    hide *;
    BodyIsReading(bytes[2..], ps, z, pad, t);
    ghost var tail := [Field(z, pad)] + ByteFields(t);
    var s, bitBuf;
    s, bitBuf, size := Inflate(InputOf(bytes[2..]), out, ps, Input(Val(tail), Len(tail)));
    status := Inflated(s);
    OutcomeIs(s, ps, out.Length, out[..size]);
    if s != Done { return; }
    bitBuf := EndPadding(bitBuf, z, pad, t);
    var ok, zAdler32 := ReadTrailer(bitBuf, t);
    if !ok { return CannotMakeProgress, size; }
    var checkAdler32 := Adler32.MzAdler32(1, out[..size]);
    if checkAdler32 != zAdler32 { status := Adler32Mismatch; }
  }

  lemma OutcomeIs(s: Status, ps: seq<Piece>, room: nat, o: seq<Byte>)
    requires Outcome(s, Play(ps, []), Played(ps, []), room, o)
    ensures s == Done <==> Plays(ps, room)
    ensures s == Done ==> Play(ps, []) == Some(o)
    ensures s == Failed <==> Play(ps, []) == None && |Played(ps, [])| <= room
    ensures s == HasMoreOutput <==> |Played(ps, [])| > room
    ensures |o| == LzCodes.Min(|Played(ps, [])|, room) && o <= Played(ps, [])
  {
    if s == Done { assert o == Played(ps, []); }
  }

  lemma PlaysIs(ps: seq<Piece>, room: nat)
    ensures Plays(ps, room) <==> Play(ps, []).Some? && |Play(ps, []).value| <= room
  {
  }
}
