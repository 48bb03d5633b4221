/**
  The compressor's bit output: a 32-bit buffer of at most 7 pending bits
  in front of a bounded byte buffer.
 */
module BitOutput {
  import opened Arith
  import opened Bits
  import opened BitStream

  /** The bytes and, behind them, the n pending bits bb are exactly the stream fs. */
  ghost predicate Settled(bytes: seq<Byte>, bb: nat, n: nat, fs: seq<Field>) {
    bb < Pow2(n) && Same(ByteFields(bytes) + [Field(bb, n)], fs)
  }

  /** The stream fs has outgrown the buffer: bytes beyond its end were dropped. */
  ghost predicate Spilled(pos: nat, end: nat, bb: nat, n: nat, fs: seq<Field>) {
    bb < Pow2(n) && pos >= end && Len(fs) >= 8 * (end + 1) + n && (Len(fs) - n) % 8 == 0
  }

  ghost predicate Holds(bytes: seq<Byte>, pos: nat, end: nat, bb: nat, n: nat, fs: seq<Field>) {
    pos <= |bytes| && (Settled(bytes[..pos], bb, n, fs) || Spilled(pos, end, bb, n, fs))
  }

  lemma SettledLen(bytes: seq<Byte>, bb: nat, n: nat, fs: seq<Field>)
    requires Settled(bytes, bb, n, fs)
    ensures Len(fs) == 8 * |bytes| + n
  {
    Append(ByteFields(bytes), [Field(bb, n)]);
    ByteFieldsLen(bytes);
    Single(Field(bb, n));
  }

  lemma Put(bytes: seq<Byte>, bb: nat, n: nat, fs: seq<Field>, b: nat, l: nat)
    requires Settled(bytes, bb, n, fs) && b < Pow2(l)
    ensures Settled(bytes, bb + b * Pow2(n), n + l, fs + [Field(b, l)])
  {
    hide *;
    SettledIs(bytes, bb, n, fs);
    PutBound(bb, n, b, l);
    var bs, f, g := ByteFields(bytes), Field(bb, n), Field(b, l);
    SameAppend(bs + [f], fs, [g]);
    assert bs + [f] + [g] == bs + [f, g];
    Merge(bb, n, b, l);
    SamePrepend(bs, [f, g], [Field(bb + b * Pow2(n), n + l)]);
    SameTransitive(bs + [Field(bb + b * Pow2(n), n + l)], bs + [f, g], fs + [g]);
    SettledIs(bytes, bb + b * Pow2(n), n + l, fs + [g]);
  }

  lemma SettledIs(bytes: seq<Byte>, bb: nat, n: nat, fs: seq<Field>)
    ensures Settled(bytes, bb, n, fs) <==> bb < Pow2(n) && Same(ByteFields(bytes) + [Field(bb, n)], fs)
  {
  }

  lemma SameTransitive(fs: seq<Field>, gs: seq<Field>, hs: seq<Field>)
    requires Same(gs, fs) || Same(fs, gs)
    requires Same(gs, hs)
    ensures Same(fs, hs)
  {
  }

  lemma PutBound(bb: nat, n: nat, b: nat, l: nat)
    requires bb < Pow2(n) && b < Pow2(l)
    ensures bb + b * Pow2(n) < Pow2(n + l)
  {
    hide *;
    FieldBelow(bb, b, Pow2(n), Pow2(l));
    Pow2Add(l, n);
  }

  lemma OutByte(bytes: seq<Byte>, bb: nat, n: nat, fs: seq<Field>)
    requires Settled(bytes, bb, n, fs) && n >= 8
    ensures Low(bb, 8) < 256 && Settled(bytes + [Low(bb, 8)], Shr(bb, 8), n - 8, fs)
  {
    ShrBound(bb, 8, n);
    LowByte(bb);
    hide Pow2, Val, Len, Low, Shr;
    var bs, c, r := ByteFields(bytes), Low(bb, 8), Shr(bb, 8);
    Cut(bb, n, 8);
    SamePrepend(bs, [Field(bb, n)], [Field(c, 8), Field(r, n - 8)]);
    assert ByteFields(bytes + [c]) == bs + [Field(c, 8)];
    assert bs + [Field(c, 8)] + [Field(r, n - 8)] == bs + [Field(c, 8), Field(r, n - 8)];
  }

  lemma LowByte(x: nat)
    ensures Low(x, 8) < 256
  {
    Pow2Values();
  }

  /** The same bytes and the same pending bits, whichever way they were produced. */
  lemma OutputIsUnique(s: seq<Byte>, a: nat, n: nat, t: seq<Byte>, b: nat, m: nat, fs: seq<Field>)
    requires Settled(s, a, n, fs) && Settled(t, b, m, fs) && n < 8 && m < 8
    ensures s == t && a == b && n == m
  {
    SettledLen(s, a, n, fs);
    SettledLen(t, b, m, fs);
    BytesAreUnique(s, t, a, b, n);
  }

  lemma HoldsPut(bytes: seq<Byte>, pos: nat, end: nat, bb: nat, n: nat, fs: seq<Field>, b: nat, l: nat)
    requires Holds(bytes, pos, end, bb, n, fs) && b < Pow2(l)
    ensures Holds(bytes, pos, end, bb + b * Pow2(n), n + l, fs + [Field(b, l)])
  {
    hide Pow2, Val, Len, Same;
    if Settled(bytes[..pos], bb, n, fs) {
      Put(bytes[..pos], bb, n, fs, b, l);
    } else {
      PutBound(bb, n, b, l);
      Append(fs, [Field(b, l)]);
      Single(Field(b, l));
    }
  }

  lemma HoldsOut(bytes: seq<Byte>, pos: nat, end: nat, bb: nat, n: nat, fs: seq<Field>)
    requires Holds(bytes, pos, end, bb, n, fs) && n >= 8 && end <= |bytes|
    ensures Low(bb, 8) < 256
    ensures pos < end ==> Holds(bytes[pos := Low(bb, 8)], pos + 1, end, Shr(bb, 8), n - 8, fs)
    ensures pos >= end ==> Holds(bytes, pos, end, Shr(bb, 8), n - 8, fs)
  {
    LowByte(bb);
    ShrBound(bb, 8, n);
    hide Pow2, Val, Same, Low, Shr, ByteFields;
    if Settled(bytes[..pos], bb, n, fs) {
      OutByte(bytes[..pos], bb, n, fs);
      SettledLen(bytes[..pos], bb, n, fs);
      if pos < end {
        assert bytes[pos := Low(bb, 8)][..pos + 1] == bytes[..pos] + [Low(bb, 8)];
      }
    }
  }

  lemma NothingYet(none: seq<Byte>)
    requires none == []
    ensures Settled(none, 0, 0, [])
  {
    assert ByteFields(none) + [Field(0, 0)] == [Field(0, 0)];
    Single(Field(0, 0));
  }

  class Output {
    const buf: array<Byte>
    const end: nat
    var pos: nat
    var bitBuffer: nat
    var bitsIn: nat
    ghost var kept: seq<Byte>

    /** The bytes up to the last saved position are still there. */
    ghost predicate Kept()
      reads this, buf
    {
      |kept| <= pos && |kept| <= buf.Length && buf[..|kept|] == kept
    }

    /** The output holds the stream fs, with fewer than 8 bits pending. */
    ghost predicate Valid(fs: seq<Field>)
      reads this, buf
    {
      end <= buf.Length && bitsIn < 8 && Kept() && Holds(buf[..], pos, end, bitBuffer, bitsIn, fs)
    }

    constructor (buf: array<Byte>, end: nat)
      requires end <= buf.Length
      ensures this.buf == buf && this.end == end && Valid([])
    {
      this.buf, this.end := buf, end;
      pos, bitBuffer, bitsIn, kept := 0, 0, 0, [];
      new;
      NothingYet(buf[..][..0]);
    }

    /** A position is saved, to come back to it if what follows is given up. */
    ghost method Save(fs: seq<Field>)
      requires Valid(fs)
      modifies `kept
      ensures Valid(fs) && |kept| == pos <= buf.Length && kept == buf[..pos]
    {
      HoldsPosition(buf[..], pos, end, bitBuffer, bitsIn, fs);
      kept := buf[..pos];
    }

    /** Back to a saved position. */
    method Restore(savedPos: nat, savedBits: nat, savedCount: nat, ghost bytes: seq<Byte>, ghost fs: seq<Field>)
      requires Kept() && |kept| == savedPos && end <= buf.Length && savedCount < 8
      requires savedPos <= |bytes| && bytes[..savedPos] == kept
               && Holds(bytes, savedPos, end, savedBits, savedCount, fs)
      modifies `pos, `bitBuffer, `bitsIn
      ensures Valid(fs) && pos == savedPos && bitBuffer == savedBits && bitsIn == savedCount
    {
      pos, bitBuffer, bitsIn := savedPos, savedBits, savedCount;
      assert buf[..][..pos] == buf[..|kept|] == kept;
    }

    /** TDEFL_PUT_BITS. */
    method PutBits(b: nat, l: nat, ghost fs: seq<Field>)
      requires Valid(fs) && l <= 24 && b < Pow2(l)
      modifies `pos, `bitBuffer, `bitsIn, buf
      ensures Valid(fs + [Field(b, l)])
    {
      hide Pow2, Low, Holds;
      ghost var gs := fs + [Field(b, l)];
      PutFits(b, l, bitsIn);
      HoldsPut(buf[..], pos, end, bitBuffer, bitsIn, fs, b, l);
      HoldsBound(buf[..], pos, end, bitBuffer, bitsIn, fs);
      OrField(bitBuffer, b, bitsIn);
      hide *;
      bitBuffer := Or(bitBuffer, Low(b * Pow2(bitsIn), 32));
      bitsIn := bitsIn + l;
      while bitsIn >= 8
        invariant end <= buf.Length && Kept() && Holds(buf[..], pos, end, bitBuffer, bitsIn, gs)
      {
        HoldsOut(buf[..], pos, end, bitBuffer, bitsIn, gs);
        if pos < end { PutByte(Low(bitBuffer, 8)); }
        bitBuffer := Shr(bitBuffer, 8);
        bitsIn := bitsIn - 8;
      }
      Shown(gs);
    }

    method PutByte(c: Byte)
      requires pos < buf.Length && Kept()
      modifies `pos, buf
      ensures pos == old(pos) + 1 && buf[..] == old(buf[..])[old(pos) := c] && Kept()
    {
      ghost var before := buf[..];
      buf[pos] := c;
      pos := pos + 1;
      assert buf[..|kept|] == before[..|kept|];
    }

    lemma Shown(fs: seq<Field>)
      requires end <= buf.Length && bitsIn < 8 && Kept() && Holds(buf[..], pos, end, bitBuffer, bitsIn, fs)
      ensures Valid(fs)
    {
    }
  }

  lemma HoldsPosition(bytes: seq<Byte>, pos: nat, end: nat, bb: nat, n: nat, fs: seq<Field>)
    requires Holds(bytes, pos, end, bb, n, fs)
    ensures pos <= |bytes|
  {
  }

  lemma HoldsBound(bytes: seq<Byte>, pos: nat, end: nat, bb: nat, n: nat, fs: seq<Field>)
    requires Holds(bytes, pos, end, bb, n, fs)
    ensures bb < Pow2(n)
  {
  }

  /** The shift does not lose bits of a 32-bit word. */
  lemma PutFits(b: nat, l: nat, n: nat)
    requires l <= 24 && n < 8 && b < Pow2(l)
    ensures Low(b * Pow2(n), 32) == b * Pow2(n)
  {
    hide *;
    ShiftedBelow(b, l, n, 32);
    Small(b * Pow2(n), 32);
  }

  lemma ShiftedBelow(b: nat, l: nat, n: nat, w: nat)
    requires b < Pow2(l) && n + l <= w
    ensures b * Pow2(n) < Pow2(w)
  {
    hide *;
    PutBound(0, n, b, l);
    PutZero(n);
    Pow2Mono(n + l, w);
  }

  lemma PutZero(n: nat)
    ensures 0 < Pow2(n)
  {
  }
}
