/**
  The compressor's token buffer: eight tokens share a leading flag byte, whose bit i says whether token i
  is a match. A literal takes one more byte, a match three (length - 3 and the two bytes of distance - 1).
 */
module LzCodes {
  import opened Arith
  import opened Bits
  import opened BitStream
  import opened Tokens

  const LZ_CODE_BUF_SIZE := 65536

  function Payload(t: Token): (p: seq<Byte>)
    requires Recordable(t)
    ensures 1 <= |p| <= 3
  {
    match t
    case Literal(lit) => [lit]
    case Match(length, dist) => [length - 3, (dist - 1) % 256, (dist - 1) / 256]
  }

  predicate AllRecordable(ts: seq<Token>) {
    forall i :: 0 <= i < |ts| ==> Recordable(ts[i])
  }

  ghost function Payloads(ts: seq<Token>): (p: seq<Byte>)
    requires AllRecordable(ts)
    ensures |p| >= |ts|
  {
    if ts == [] then [] else Payload(ts[0]) + Payloads(ts[1..])
  }

  function FlagBits(ts: seq<Token>): (f: nat) {
    if ts == [] then 0 else (if ts[0].Match? then 1 else 0) + 2 * FlagBits(ts[1..])
  }

  lemma {:induction false} FlagBitsBound(ts: seq<Token>)
    ensures FlagBits(ts) < Pow2(|ts|)
  {
    if ts != [] { FlagBitsBound(ts[1..]); }
  }

  lemma FlagByte(ts: seq<Token>)
    requires |ts| <= 8
    ensures FlagBits(ts) < 256
  {
    FlagBitsBound(ts);
    Pow2Mono(|ts|, 8);
    Pow2Values();
  }

  function Min(a: nat, b: nat): nat { if a <= b then a else b }

  /** The bytes that a whole token sequence takes. */
  ghost function Encoded(ts: seq<Token>): (b: seq<Byte>)
    requires AllRecordable(ts)
    ensures |b| >= |ts| + |ts| / 8
  {
    if ts == [] then []
    else
      var n := Min(8, |ts|);
      FlagByte(ts[..n]);
      [FlagBits(ts[..n])] + Payloads(ts[..n]) + Encoded(ts[n..])
  }

  lemma {:induction false} FlagBitsSnoc(ts: seq<Token>, t: Token)
    ensures FlagBits(ts + [t]) == FlagBits(ts) + (if t.Match? then Pow2(|ts|) else 0)
  {
    if ts == [] {
      assert FlagBits([t][1..]) == 0;
      assert ([] + [t])[1..] == [];
    } else {
      assert (ts + [t])[1..] == ts[1..] + [t];
      FlagBitsSnoc(ts[1..], t);
    }
  }

  lemma {:induction false} PayloadsSnoc(ts: seq<Token>, t: Token)
    requires AllRecordable(ts) && Recordable(t)
    ensures Payloads(ts + [t]) == Payloads(ts) + Payload(t)
  {
    if ts == [] {
      assert ([] + [t])[1..] == [];
      assert [] + [t] == [t];
    } else {
      assert (ts + [t])[1..] == ts[1..] + [t];
      PayloadsSnoc(ts[1..], t);
    }
  }

  lemma {:induction false} EncodedAppend(full: seq<Token>, part: seq<Token>)
    requires AllRecordable(full) && AllRecordable(part) && |full| % 8 == 0
    ensures Encoded(full + part) == Encoded(full) + Encoded(part)
    decreases |full|
  {
    if full == [] {
      assert full + part == part;
    } else {
      assert (full + part)[..8] == full[..8];
      assert (full + part)[8..] == full[8..] + part;
      EncodedAppend(full[8..], part);
    }
  }

  lemma EncodedGroup(ts: seq<Token>)
    requires AllRecordable(ts) && 0 < |ts| <= 8
    ensures FlagBits(ts) < 256 && Encoded(ts) == [FlagBits(ts)] + Payloads(ts)
  {
    FlagByte(ts);
    assert ts[..|ts|] == ts && ts[|ts|..] == [];
  }

  /** Tokens that share the last, still open flag byte. */
  function Part(ts: seq<Token>, left: nat): seq<Token>
    requires left <= 8 && 8 - left <= |ts|
  {
    ts[|ts| - (8 - left)..]
  }

  function Full(ts: seq<Token>, left: nat): seq<Token>
    requires left <= 8 && 8 - left <= |ts|
  {
    ts[..|ts| - (8 - left)]
  }

  /** bytes[..next] records ts; the flag byte at `flags` has room for `left` more tokens. */
  ghost predicate Recorded(bytes: seq<Byte>, next: nat, flags: nat, left: nat, ts: seq<Token>) {
    && AllRecordable(ts) && 1 <= left <= 8 && 8 - left <= |ts| && |Full(ts, left)| % 8 == 0
    && flags < next <= |bytes|
    && bytes[..flags] == Encoded(Full(ts, left))
    && bytes[flags + 1..next] == Payloads(Part(ts, left))
    && Shr(bytes[flags], left) == FlagBits(Part(ts, left))
  }

  lemma NothingRecorded(bytes: seq<Byte>)
    requires |bytes| >= 1
    ensures Recorded(bytes, 1, 0, 8, [])
  {
    Pow2Values();
    Small(bytes[0], 8);
    assert bytes[..0] == [] && bytes[1..1] == [];
  }

  /** The flag byte after one more token: shifted down, with the new flag on top. */
  function NextFlag(f: Byte, isMatch: bool): (g: Byte) {
    f / 2 + if isMatch then 128 else 0
  }

  lemma NextFlagBits(f: Byte, left: nat, isMatch: bool, b: nat)
    requires 1 <= left <= 8 && Shr(f, left) == b
    ensures Shr(NextFlag(f, isMatch), left - 1) == b + if isMatch then Pow2(8 - left) else 0
  {
    var g := f / 2;
    Split(f, left);
    LowBound(f, left);
    assert Pow2(left) == 2 * Pow2(left - 1);
    var r := Low(f, left);
    var p := Pow2(left - 1);
    assert f == b * (2 * p) + r;
    HalfSplit(f, b, p, r);
    Pow2Values();
    Pow2Add(8 - left, left - 1);
    if isMatch {
      DistributeRight(b, Pow2(8 - left), p);
      Unique(g + 128, left - 1, b + Pow2(8 - left), r / 2);
    } else {
      Unique(g, left - 1, b, r / 2);
    }
  }

  lemma HalfSplit(f: nat, b: nat, p: nat, r: nat)
    requires f == b * (2 * p) + r && r < 2 * p
    ensures f / 2 == b * p + r / 2 && r / 2 < p
  {
    assert b * (2 * p) == 2 * (b * p);
  }

  lemma Snoc(ts: seq<Token>, left: nat, t: Token)
    requires 1 <= left <= 8 && 8 - left <= |ts|
    ensures Full(ts + [t], left - 1) == Full(ts, left) && Part(ts + [t], left - 1) == Part(ts, left) + [t]
  {
  }

  lemma Halves(ts: seq<Token>, left: nat)
    requires left <= 8 && 8 - left <= |ts|
    ensures ts == Full(ts, left) + Part(ts, left)
    ensures AllRecordable(ts) ==> AllRecordable(Full(ts, left)) && AllRecordable(Part(ts, left))
    ensures |Part(ts, left)| == 8 - left && |Full(ts, left)| == |ts| - (8 - left)
    ensures left == 8 ==> Full(ts, left) == ts && Part(ts, left) == []
  {
  }

  lemma FreshGroup(bytes: seq<Byte>, next: nat, ts: seq<Token>)
    requires AllRecordable(ts) && |ts| % 8 == 0 && next < |bytes| && bytes[..next] == Encoded(ts)
    ensures Recorded(bytes, next + 1, next, 8, ts)
  {
    hide *;
    NoPayload();
    ByteGone(bytes[next]);
    NothingOpen(bytes, next, ts);
    Halves(ts, 8);
    IsRecorded(bytes, next + 1, next, 8, ts);
  }

  lemma NothingOpen(bytes: seq<Byte>, next: nat, ts: seq<Token>)
    requires AllRecordable(ts) && next < |bytes| && bytes[..next] == Encoded(ts)
    requires Payloads([]) == [] && Shr(bytes[next], 8) == FlagBits([])
    ensures Open(bytes, next + 1, next, 8, ts, [])
  {
    hide Encoded, Payloads, Shr, FlagBits, Recordable;
    assert bytes[next + 1..next + 1] == [];
  }

  lemma ByteGone(x: Byte)
    ensures Shr(x, 8) == 0
  {
    Pow2Values();
    Small(x, 8);
  }

  lemma SplitAt<T>(s: seq<T>, f: nat, n: nat)
    requires f < n <= |s|
    ensures s[..n] == s[..f] + ([s[f]] + s[f + 1..n])
  {
  }

  /** The layout of the last group: complete groups, then the flag byte, then the payloads of part. */
  ghost predicate Open(bytes: seq<Byte>, next: nat, flags: nat, left: nat, full: seq<Token>, part: seq<Token>) {
    && AllRecordable(full) && AllRecordable(part) && flags < next <= |bytes|
    && bytes[..flags] == Encoded(full)
    && bytes[flags + 1..next] == Payloads(part)
    && Shr(bytes[flags], left) == FlagBits(part)
  }

  lemma RecordedIs(bytes: seq<Byte>, next: nat, flags: nat, left: nat, ts: seq<Token>)
    requires Recorded(bytes, next, flags, left, ts)
    ensures AllRecordable(ts) && 1 <= left <= 8 && 8 - left <= |ts| && |Full(ts, left)| % 8 == 0
    ensures Open(bytes, next, flags, left, Full(ts, left), Part(ts, left))
  {
  }

  lemma IsRecorded(bytes: seq<Byte>, next: nat, flags: nat, left: nat, ts: seq<Token>)
    requires AllRecordable(ts) && 1 <= left <= 8 && 8 - left <= |ts| && |Full(ts, left)| % 8 == 0
    requires Open(bytes, next, flags, left, Full(ts, left), Part(ts, left))
    ensures Recorded(bytes, next, flags, left, ts)
  {
  }

  lemma RecordableSnoc(ts: seq<Token>, t: Token)
    requires AllRecordable(ts) && Recordable(t)
    ensures AllRecordable(ts + [t])
  {
  }

  /** The flag byte is full. */
  lemma GroupDone(bytes: seq<Byte>, next: nat, flags: nat, full: seq<Token>, part: seq<Token>)
    requires Open(bytes, next, flags, 0, full, part) && |full| % 8 == 0 && |part| == 8 && next < |bytes|
    ensures Recorded(bytes, next + 1, next, 8, full + part)
  {
    hide *;
    GroupClosed(bytes, next, flags, full, part);
    FreshGroup(bytes, next, full + part);
  }

  lemma GroupClosed(bytes: seq<Byte>, next: nat, flags: nat, full: seq<Token>, part: seq<Token>)
    requires Open(bytes, next, flags, 0, full, part) && |full| % 8 == 0 && 0 < |part| <= 8
    ensures next <= |bytes| && AllRecordable(full + part) && bytes[..next] == Encoded(full + part)
  {
    ShrNone(bytes[flags]);
    EncodedAppend(full, part);
    EncodedGroup(part);
    SplitAt(bytes, flags, next);
    hide Encoded, Payloads, Shr, FlagBits, Recordable;
  }

  lemma OpenMore(bytes: seq<Byte>, next: nat, flags: nat, left: nat, full: seq<Token>, part: seq<Token>, t: Token,
                 after: seq<Byte>, to: nat)
    requires Open(bytes, next, flags, left, full, part) && Recordable(t) && |after| == |bytes|
    requires 1 <= left <= 8 && |part| == 8 - left && to == next + |Payload(t)| <= |bytes|
    requires after[..flags] == bytes[..flags] && after[flags] == NextFlag(bytes[flags], t.Match?)
    requires after[flags + 1..to] == bytes[flags + 1..next] + Payload(t)
    ensures Open(after, to, flags, left - 1, full, part + [t])
  {
    PayloadsSnoc(part, t);
    FlagBitsSnoc(part, t);
    NextFlagBits(bytes[flags], left, t.Match?, FlagBits(part));
    RecordableSnoc(part, t);
    hide AllRecordable, Payload, Payloads, FlagBits, Encoded, NextFlag, Shr, Pow2, Recordable;
  }

  /** The buffer after a token's payload and flag have been written. */
  lemma OneMore(bytes: seq<Byte>, next: nat, flags: nat, left: nat, ts: seq<Token>, t: Token, after: seq<Byte>, to: nat)
    requires Recorded(bytes, next, flags, left, ts) && Recordable(t) && |after| == |bytes|
    requires flags < next <= next + |Payload(t)| == to < |bytes|
    requires after[..flags] == bytes[..flags] && after[flags] == NextFlag(bytes[flags], t.Match?)
    requires after[flags + 1..to] == bytes[flags + 1..next] + Payload(t)
    ensures left > 1 ==> Recorded(after, to, flags, left - 1, ts + [t])
    ensures left == 1 ==> Recorded(after, to + 1, to, 8, ts + [t])
  {
    hide *;
    RecordedIs(bytes, next, flags, left, ts);
    Halves(ts, left);
    OpenMore(bytes, next, flags, left, Full(ts, left), Part(ts, left), t, after, to);
    Snoc(ts, left, t);
    RecordableSnoc(ts, t);
    Halves(ts + [t], left - 1);
    if left == 1 {
      GroupDone(after, to, flags, Full(ts, left), Part(ts, left) + [t]);
    } else {
      IsRecorded(after, to, flags, left - 1, ts + [t]);
    }
  }

  lemma ShrNone(x: nat)
    ensures Shr(x, 0) == x
  {
  }

  /** After the flag byte has been moved into place, the buffer holds exactly the encoded tokens. */
  lemma Closed(bytes: seq<Byte>, next: nat, flags: nat, left: nat, ts: seq<Token>, after: seq<Byte>)
    requires Recorded(bytes, next, flags, left, ts)
    requires |after| == |bytes| && after == bytes[flags := Shr(bytes[flags], left)]
    ensures after[..if left == 8 then next - 1 else next] == Encoded(ts)
  {
    RecordedIs(bytes, next, flags, left, ts);
    Halves(ts, left);
    OpenClosed(bytes, next, flags, left, Full(ts, left), Part(ts, left), after);
  }

  lemma OpenClosed(bytes: seq<Byte>, next: nat, flags: nat, left: nat, full: seq<Token>, part: seq<Token>,
                   after: seq<Byte>)
    requires Open(bytes, next, flags, left, full, part) && |full| % 8 == 0 && |part| == 8 - left && 1 <= left <= 8
    requires |after| == |bytes| && after == bytes[flags := Shr(bytes[flags], left)]
    ensures AllRecordable(full + part)
    ensures after[..if left == 8 then next - 1 else next] == Encoded(full + part)
  {
    assert after[..flags] == bytes[..flags] && after[flags + 1..next] == bytes[flags + 1..next];
    ShrNone(after[flags]);
    hide Encoded, Payloads, Shr, FlagBits, Recordable;
    if left == 8 {
      NoPayload();
      assert part == [] && next == flags + 1 && full + part == full;
    } else {
      GroupClosed(after, next, flags, full, part);
    }
  }

  lemma Sizes()
    ensures LZ_CODE_BUF_SIZE == 65536 && LIT_SYMBOLS == 288 && DIST_SYMBOLS == 32
  {
  }

  lemma NothingCounted(lit: seq<nat>, dist: seq<nat>)
    requires |lit| == 288 && |dist| == 32
    requires (forall s :: 0 <= s < 288 ==> lit[s] == 0) && (forall s :: 0 <= s < 32 ==> dist[s] == 0)
    ensures Counted(lit, dist, []) && TotalSize([]) == 0
  {
    SumZeros(lit);
    SumZeros(dist);
  }

  lemma NoPayload()
    ensures Payloads([]) == [] && FlagBits([]) == 0
  {
  }

  // ----- what is counted along with the tokens

  function LitSym(t: Token): (s: nat)
    requires Recordable(t)
    ensures s <= 285 && s != END_OF_BLOCK
  {
    if t.Literal? then t.lit else LenSym(t.length - 3)
  }

  ghost function LitTally(ts: seq<Token>, s: nat): (c: nat)
    requires AllRecordable(ts)
    ensures c <= |ts|
  {
    if ts == [] then 0 else LitTally(ts[..|ts| - 1], s) + if LitSym(ts[|ts| - 1]) == s then 1 else 0
  }

  ghost function DistTally(ts: seq<Token>, s: nat): (c: nat)
    requires AllRecordable(ts)
    ensures c <= |ts|
  {
    if ts == [] then 0
    else DistTally(ts[..|ts| - 1], s) + if ts[|ts| - 1].Match? && DistSym(ts[|ts| - 1].dist - 1) == s then 1 else 0
  }

  function Size(t: Token): nat {
    if t.Literal? then 1 else t.length
  }

  ghost function TotalSize(ts: seq<Token>): nat {
    if ts == [] then 0 else TotalSize(ts[..|ts| - 1]) + Size(ts[|ts| - 1])
  }

  /** The symbol counts of a block, and their sums. */
  ghost predicate Counted(lit: seq<nat>, dist: seq<nat>, ts: seq<Token>) {
    && AllRecordable(ts) && |lit| == LIT_SYMBOLS && |dist| == DIST_SYMBOLS
    && (forall s :: 0 <= s < LIT_SYMBOLS ==> lit[s] == LitTally(ts, s))
    && (forall s :: 0 <= s < DIST_SYMBOLS ==> dist[s] == DistTally(ts, s))
    && Sum(lit) == |ts| && Sum(dist) <= |ts|
  }

  lemma CountedSnoc(lit: seq<nat>, dist: seq<nat>, ts: seq<Token>, t: Token)
    requires Counted(lit, dist, ts) && Recordable(t)
    ensures t.Literal? ==> Counted(lit[t.lit := lit[t.lit] + 1], dist, ts + [t])
    ensures t.Match? ==> var s, d := LenSym(t.length - 3), DistSym(t.dist - 1);
                         Counted(lit[s := lit[s] + 1], dist[d := dist[d] + 1], ts + [t])
  {
    assert (ts + [t])[..|ts|] == ts;
    var s := LitSym(t);
    SumUpdate(lit, s, lit[s] + 1);
    if t.Match? {
      var d := DistSym(t.dist - 1);
      SumUpdate(dist, d, dist[d] + 1);
    }
  }

  lemma {:induction false} SumZeros(s: seq<int>)
    requires forall i :: 0 <= i < |s| ==> s[i] == 0
    ensures Sum(s) == 0
  {
    if s != [] { SumZeros(s[1..]); }
  }

  /** A buffer of 64 KB holds so few tokens that no 16-bit count wraps, not even with the end-of-block symbol. */
  lemma FewTokens(bytes: seq<Byte>, next: nat, flags: nat, left: nat, ts: seq<Token>)
    requires Recorded(bytes, next, flags, left, ts) && |bytes| <= LZ_CODE_BUF_SIZE
    ensures |ts| + 1 < 0x1_0000
  {
    assert |bytes[..flags]| == flags;
  }

  lemma {:induction false} TotalSizeAppend(a: seq<Token>, b: seq<Token>)
    ensures TotalSize(a + b) == TotalSize(a) + TotalSize(b)
    decreases |b|
  {
    if b == [] {
      assert a + b == a;
    } else {
      assert (a + b)[..|a + b| - 1] == a + b[..|b| - 1];
      TotalSizeAppend(a, b[..|b| - 1]);
    }
  }

  lemma {:induction false} PayloadsSize(ts: seq<Token>)
    requires AllRecordable(ts)
    ensures |Payloads(ts)| <= TotalSize(ts) && |ts| <= TotalSize(ts)
    decreases |ts|
  {
    if ts != [] {
      var n: nat := |ts| - 1;
      assert ts == ts[..n] + [ts[n]] && Recordable(ts[n]);
      PayloadsSize(ts[..n]);
      PayloadsSnoc(ts[..n], ts[n]);
      hide Payloads;
    }
  }

  /** Whole groups of eight tokens take at most 9/8 of the bytes they stand for. */
  lemma {:induction false} EncodedSize(ts: seq<Token>)
    requires AllRecordable(ts) && |ts| % 8 == 0
    ensures 8 * |Encoded(ts)| <= 9 * TotalSize(ts)
    decreases |ts|
  {
    if ts != [] {
      var g, us := ts[..8], ts[8..];
      assert ts == g + us;
      PayloadsSize(g);
      EncodedSize(us);
      TotalSizeAppend(g, us);
      FlagByte(g);
      assert Encoded(ts) == [FlagBits(g)] + Payloads(g) + Encoded(us);
    }
  }

  /** So many bytes in the token buffer stand for at least 8/9 as many bytes of data. */
  lemma RecordedSize(bytes: seq<Byte>, next: nat, flags: nat, left: nat, ts: seq<Token>)
    requires Recorded(bytes, next, flags, left, ts)
    ensures 8 * next <= 9 * TotalSize(ts) + 8
  {
    assert |bytes[..flags]| == flags && |bytes[flags + 1..next]| == next - flags - 1;
    assert ts == Full(ts, left) + Part(ts, left);
    TotalSizeAppend(Full(ts, left), Part(ts, left));
    EncodedSize(Full(ts, left));
    PayloadsSize(Part(ts, left));
    hide Encoded, Payloads, TotalSize, Full, Part;
  }

  class LzCodeBuffer {
    const buf: array<Byte>
    const litCount: array<nat>
    const distCount: array<nat>
    var next: nat
    var flags: nat
    var left: nat
    var totalLzBytes: nat

    /** The buffer and the counts record the tokens ts. */
    ghost predicate Valid(ts: seq<Token>)
      reads this, buf, litCount, distCount
    {
      && buf.Length == LZ_CODE_BUF_SIZE && litCount != distCount
      && Recorded(buf[..], next, flags, left, ts)
      && Counted(litCount[..], distCount[..], ts)
      && totalLzBytes == TotalSize(ts)
    }

    constructor ()
      ensures Valid([]) && fresh(buf) && fresh(litCount) && fresh(distCount) && next == 1
    {
      buf := new Byte[LZ_CODE_BUF_SIZE];
      litCount := new nat[LIT_SYMBOLS](_ => 0);
      distCount := new nat[DIST_SYMBOLS](_ => 0);
      next, flags, left, totalLzBytes := 1, 0, 8, 0;
      new;
      hide *;
      Sizes();
      NothingRecorded(buf[..]);
      NothingCounted(litCount[..], distCount[..]);
      IsValid([]);
    }

    lemma Opened(ts: seq<Token>)
      requires Valid(ts)
      ensures buf.Length == LZ_CODE_BUF_SIZE == 65536 && litCount != distCount
      ensures litCount.Length == 288 && distCount.Length == 32
      ensures Recorded(buf[..], next, flags, left, ts)
      ensures Counted(litCount[..], distCount[..], ts)
      ensures totalLzBytes == TotalSize(ts)
      ensures flags < next <= buf.Length && 1 <= left <= 8
    {
    }

    /** When the code flushes on its own, more than 31 KB of data are in the block. */
    lemma MuchRecorded(ts: seq<Token>)
      requires Valid(ts) && (next > 65528 || totalLzBytes > 31 * 1024)
      ensures TotalSize(ts) >= 31745
    {
      RecordedSize(buf[..], next, flags, left, ts);
    }

    /** tdefl_record_literal. */
    method RecordLiteral(lit: Byte, ghost ts: seq<Token>)
      requires Valid(ts) && next + 2 <= LZ_CODE_BUF_SIZE
      modifies this, buf, litCount
      ensures Valid(ts + [Literal(lit)]) && next <= old(next) + 2
    {
      hide *;
      ghost var t, bytes, lc, dc := Literal(lit), buf[..], litCount[..], distCount[..];
      Opened(ts);
      CountedSizes(lc, dc, ts);
      LiteralIs(lit);
      CountedLiteral(lc, dc, ts, lit);
      TotalSizeSnoc(ts, t);
      totalLzBytes := totalLzBytes + 1;
      buf[next] := lit;
      Stored1(bytes, buf[..], next, lit);
      SetFlag(next + 1, false, ts, t, bytes, buf[..]);
      Bump(litCount, lit);
      IsValid(ts + [t]);
    }

    /** tdefl_record_match. */
    method RecordMatch(matchLen: nat, matchDist: nat, ghost ts: seq<Token>)
      requires Valid(ts) && next + 4 <= LZ_CODE_BUF_SIZE && Recordable(Match(matchLen, matchDist))
      modifies this, buf, litCount, distCount
      ensures Valid(ts + [Match(matchLen, matchDist)]) && next <= old(next) + 4
    {
      hide *;
      ghost var t, bytes, lc, dc := Match(matchLen, matchDist), buf[..], litCount[..], distCount[..];
      Opened(ts);
      CountedSizes(lc, dc, ts);
      MatchIs(matchLen, matchDist);
      CountedMatch(lc, dc, ts, matchLen, matchDist);
      TotalSizeSnoc(ts, t);
      totalLzBytes := totalLzBytes + matchLen;
      StoreMatch(matchLen, matchDist - 1);
      SetFlag(next + 3, true, ts, t, bytes, buf[..]);
      CountMatch(matchLen, matchDist - 1);
      IsValid(ts + [t]);
    }

    method StoreMatch(matchLen: nat, d: nat)
      requires 3 <= matchLen <= 258 && d < 32768 && next + 3 <= buf.Length
      modifies buf
      ensures buf[..next] == old(buf[..next]) && buf[next..next + 3] == [matchLen - 3, d % 256, d / 256]
    {
      hide *;
      buf[next], buf[next + 1], buf[next + 2] := matchLen - 3, d % 256, d / 256;
    }

    method CountMatch(matchLen: nat, d: nat)
      requires 3 <= matchLen <= 258 && d < 32768 && litCount != distCount
      requires litCount.Length == 288 && distCount.Length == 32
      modifies litCount, distCount
      ensures var s, y := LenSym(matchLen - 3), DistSym(d);
              litCount[..] == old(litCount[..])[s := old(litCount[..])[s] + 1]
              && distCount[..] == old(distCount[..])[y := old(distCount[..])[y] + 1]
    {
      DistSymIs(d);
      hide *;
      var sym := if d < 512 then SmallDistSym(d) else LargeDistSym(d / 256);
      Bump(distCount, sym);
      Bump(litCount, LenSym(matchLen - 3));
    }

    /** The flag of the token whose payload ends at `to`; then a new flag byte if this one is full. */
    method SetFlag(to: nat, isMatch: bool, ghost ts: seq<Token>, ghost t: Token, ghost bytes: seq<Byte>,
                   ghost mid: seq<Byte>)
      requires mid == buf[..] && |bytes| == |mid| && Recorded(bytes, next, flags, left, ts)
      requires Recordable(t) && isMatch == t.Match? && flags < next && next + |Payload(t)| == to < |bytes|
               && 1 <= left <= 8
      requires mid[..next] == bytes[..next] && mid[next..to] == Payload(t)
      modifies `next, `flags, `left, buf
      ensures Recorded(buf[..], next, flags, left, ts + [t]) && next <= to + 1
    {
      ghost var n, f, l := next, flags, left;
      hide *;
      next := to;
      var g: Byte := NextFlag(buf[flags], isMatch);
      buf[flags] := g;
      assert mid[f] == bytes[f] by { assert mid[..n][f] == bytes[..n][f]; }
      ghost var after := buf[..];
      assert after == mid[f := g];
      assert after[f + 1..to] == bytes[f + 1..n] + Payload(t) by {
        assert mid[f + 1..to] == mid[..n][f + 1..] + mid[n..to];
        assert bytes[f + 1..n] == bytes[..n][f + 1..];
      }
      assert after[..f] == bytes[..f] by { assert mid[..f] == mid[..n][..f] && bytes[..f] == bytes[..n][..f]; }
      OneMore(bytes, n, f, l, ts, t, after, to);
      left := left - 1;
      if left == 0 {
        left := 8;
        flags := next;
        next := next + 1;
      }
    }

    lemma IsValid(ts: seq<Token>)
      requires buf.Length == LZ_CODE_BUF_SIZE && litCount != distCount
      requires Recorded(buf[..], next, flags, left, ts)
      requires Counted(litCount[..], distCount[..], ts)
      requires totalLzBytes == TotalSize(ts)
      ensures Valid(ts)
    {
    }

    /** The start of tdefl_flush_block: the last flag byte is moved into place, or dropped if it is unused. */
    method Close(ghost ts: seq<Token>)
      requires Valid(ts)
      modifies `next, buf
      ensures next <= LZ_CODE_BUF_SIZE == buf.Length && buf[..next] == Encoded(ts)
    {
      ghost var bytes := buf[..];
      Within(bytes, next, flags, left, ts);
      ghost var n, f, l := next, flags, left;
      hide *;
      ShrAtMost(buf[flags], left);
      var g: Byte := Shr(buf[flags], left);
      buf[flags] := g;
      Closed(bytes, n, f, l, ts, buf[..]);
      next := next - if left == 8 then 1 else 0;
    }

    /** The end of tdefl_flush_block: an empty buffer. Its first flag byte is left as it is. */
    method Reset()
      requires buf.Length == LZ_CODE_BUF_SIZE && litCount != distCount
      requires litCount.Length == LIT_SYMBOLS && distCount.Length == DIST_SYMBOLS
      modifies this, litCount, distCount
      ensures Valid([]) && next == 1
    {
      hide *;
      Sizes();
      Clear(litCount);
      Clear(distCount);
      next, flags, left, totalLzBytes := 1, 0, 8, 0;
      NothingRecorded(buf[..]);
      NothingCounted(litCount[..], distCount[..]);
      IsValid([]);
    }
  }

  method Clear(a: array<nat>)
    modifies a
    ensures forall i :: 0 <= i < a.Length ==> a[i] == 0
  {
    for i := 0 to a.Length
      invariant forall k :: 0 <= k < i ==> a[k] == 0
    {
      a[i] := 0;
    }
  }

  lemma ShrAtMost(x: nat, k: nat)
    ensures Shr(x, k) <= x
  {
    Split(x, k);
    if Shr(x, k) > 0 { MulMono(1, Pow2(k), Shr(x, k)); }
  }

  method Bump(a: array<nat>, i: nat)
    requires i < a.Length
    modifies a
    ensures a[..] == old(a[..])[i := old(a[..])[i] + 1]
  {
    a[i] := a[i] + 1;
  }

  lemma Stored1(bytes: seq<Byte>, mid: seq<Byte>, n: nat, c: Byte)
    requires n < |bytes| && mid == bytes[n := c]
    ensures mid[..n] == bytes[..n] && mid[n..n + 1] == [c]
  {
  }

  lemma DistSymIs(d: nat)
    requires d < 32768
    ensures DistSym(d) == if d < 512 then SmallDistSym(d) else LargeDistSym(d / 256)
  {
  }

  lemma CountedLiteral(lit: seq<nat>, dist: seq<nat>, ts: seq<Token>, c: Byte)
    requires Counted(lit, dist, ts) && |lit| == 288
    ensures Counted(lit[c := lit[c] + 1], dist, ts + [Literal(c)])
  {
    CountedSnoc(lit, dist, ts, Literal(c));
  }

  lemma CountedMatch(lit: seq<nat>, dist: seq<nat>, ts: seq<Token>, length: nat, d: nat)
    requires Counted(lit, dist, ts) && |lit| == 288 && |dist| == 32 && 3 <= length <= 258 && 1 <= d <= 32768
    ensures var s, y := LenSym(length - 3), DistSym(d - 1);
            Counted(lit[s := lit[s] + 1], dist[y := dist[y] + 1], ts + [Match(length, d)])
  {
    CountedSnoc(lit, dist, ts, Match(length, d));
  }

  lemma Within(bytes: seq<Byte>, next: nat, flags: nat, left: nat, ts: seq<Token>)
    requires Recorded(bytes, next, flags, left, ts)
    ensures flags < next <= |bytes| && 1 <= left <= 8
  {
  }

  lemma CountedSizes(lit: seq<nat>, dist: seq<nat>, ts: seq<Token>)
    requires Counted(lit, dist, ts)
    ensures |lit| == LIT_SYMBOLS == 288 && |dist| == DIST_SYMBOLS == 32 && AllRecordable(ts)
  {
  }

  lemma TotalSizeSnoc(ts: seq<Token>, t: Token)
    ensures TotalSize(ts + [t]) == TotalSize(ts) + if t.Literal? then 1 else t.length
  {
    assert (ts + [t])[..|ts|] == ts;
  }

  lemma LiteralIs(lit: Byte)
    ensures Payload(Literal(lit)) == [lit] && Recordable(Literal(lit)) && LZ_CODE_BUF_SIZE == 65536
  {
  }

  lemma MatchIs(length: nat, dist: nat)
    requires Recordable(Match(length, dist))
    ensures 3 <= length <= 258 && 1 <= dist <= 32768
    ensures Payload(Match(length, dist)) == [length - 3, (dist - 1) % 256, (dist - 1) / 256]
            && LZ_CODE_BUF_SIZE == 65536
    ensures DistSym(dist - 1) == if dist - 1 < 512 then SmallDistSym(dist - 1) else LargeDistSym((dist - 1) / 256)
  {
  }
}
