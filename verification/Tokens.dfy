/**
  The tokens of the compressor, the symbols and extra bits that stand for them (section 3.2.5 of
  RFC 1951), and the decompressor's tables that read those back.
 */
module Tokens {
  import opened Arith
  import opened Bits
  import opened BitStream
  import opened Wrappers

  datatype Token = Literal(lit: Byte) | Match(length: nat, dist: nat)

  const MIN_MATCH_LEN := 3
  const MAX_MATCH_LEN := 258
  const LZ_DICT_SIZE := 32768
  const END_OF_BLOCK := 256
  const LIT_SYMBOLS := 288
  const DIST_SYMBOLS := 32

  /** What the compressor asserts of a match before it records it. */
  predicate Recordable(t: Token) {
    t.Match? ==> MIN_MATCH_LEN <= t.length <= MAX_MATCH_LEN && 1 <= t.dist <= LZ_DICT_SIZE
  }

  /** n more bytes, each taken from dist bytes before it; the source may overlap what is being written. */
  function Copy(o: seq<Byte>, dist: nat, n: nat): (r: seq<Byte>)
    requires 1 <= dist <= |o|
    ensures |r| == |o| + n && o <= r
    decreases n
  {
    if n == 0 then o else Copy(o + [o[|o| - dist]], dist, n - 1)
  }

  /** What a token sequence stands for behind the bytes o; None if a match reaches back too far. */
  function Expand(ts: seq<Token>, o: seq<Byte>): Option<seq<Byte>>
    decreases |ts|
  {
    if ts == [] then Some(o)
    else match ts[0]
      case Literal(lit) => Expand(ts[1..], o + [lit])
      case Match(length, dist) =>
        if 1 <= dist <= |o| then Expand(ts[1..], Copy(o, dist, length)) else None
  }

  lemma {:induction false} ExpandAppend(ts: seq<Token>, us: seq<Token>, o: seq<Byte>)
    requires Expand(ts, o).Some?
    ensures Expand(ts + us, o) == Expand(us, Expand(ts, o).value)
    decreases |ts|
  {
    if ts == [] {
      assert ts + us == us;
    } else {
      assert (ts + us)[1..] == ts[1..] + us;
      match ts[0]
      case Literal(lit) => ExpandAppend(ts[1..], us, o + [lit]);
      case Match(length, dist) => ExpandAppend(ts[1..], us, Copy(o, dist, length));
    }
  }

  lemma {:induction false} ExpandGrows(ts: seq<Token>, o: seq<Byte>)
    requires Expand(ts, o).Some?
    ensures o <= Expand(ts, o).value
    decreases |ts|
  {
    if ts != [] {
      match ts[0]
      case Literal(lit) => ExpandGrows(ts[1..], o + [lit]);
      case Match(length, dist) => ExpandGrows(ts[1..], Copy(o, dist, length));
    }
  }

  /** What comes out of the tokens behind the bytes o until a match reaches back too far. */
  function Delivered(ts: seq<Token>, o: seq<Byte>): (r: seq<Byte>)
    ensures o <= r
    decreases |ts|
  {
    if ts == [] then o
    else match ts[0]
      case Literal(lit) => Delivered(ts[1..], o + [lit])
      case Match(length, dist) =>
        if 1 <= dist <= |o| then Delivered(ts[1..], Copy(o, dist, length)) else o
  }

  /** If none does, it is all of what they stand for. */
  lemma {:induction false} DeliveredIs(ts: seq<Token>, o: seq<Byte>)
    requires Expand(ts, o).Some?
    ensures Delivered(ts, o) == Expand(ts, o).value
    decreases |ts|
  {
    if ts != [] {
      match ts[0]
      case Literal(lit) => DeliveredIs(ts[1..], o + [lit]);
      case Match(length, dist) => DeliveredIs(ts[1..], Copy(o, dist, length));
    }
  }

  /** If one does, it is what the tokens before it stand for. */
  lemma {:induction false} DeliveredUpTo(ts: seq<Token>, o: seq<Byte>) returns (k: nat)
    requires Expand(ts, o).None?
    ensures k < |ts| && ts[k].Match? && Expand(ts[..k], o) == Some(Delivered(ts, o))
    ensures !(1 <= ts[k].dist <= |Delivered(ts, o)|)
    decreases |ts|
  {
    match ts[0]
    case Literal(lit) =>
      k := DeliveredUpTo(ts[1..], o + [lit]);
      k := k + 1;
      assert ts[..k][1..] == ts[1..][..k - 1];
    case Match(length, dist) =>
      if 1 <= dist <= |o| {
        k := DeliveredUpTo(ts[1..], Copy(o, dist, length));
        k := k + 1;
        assert ts[..k][1..] == ts[1..][..k - 1];
      } else {
        k := 0;
        assert ts[..0] == [];
      }
  }

  lemma {:induction false} CopySplit(o: seq<Byte>, dist: nat, a: nat, b: nat)
    requires 1 <= dist <= |o|
    ensures Copy(o, dist, a + b) == Copy(Copy(o, dist, a), dist, b)
    decreases a
  {
    if a > 0 { CopySplit(o + [o[|o| - dist]], dist, a - 1, b); }
  }

  /** s_tdefl_len_sym, run by run. */
  function LenSym(n: nat): (s: nat)
    requires n < 256
    ensures 257 <= s <= 285
  {
    if n < 8 then 257 + n
    else if n < 16 then 265 + (n - 8) / 2
    else if n < 32 then 269 + (n - 16) / 4
    else if n < 64 then 273 + (n - 32) / 8
    else if n < 128 then 277 + (n - 64) / 16
    else if n < 255 then 281 + (n - 128) / 32
    else 285
  }

  /** s_tdefl_len_extra. */
  function LenExtra(n: nat): (e: nat)
    requires n < 256
    ensures e <= 5
  {
    if n < 8 then 0 else if n < 16 then 1 else if n < 32 then 2 else if n < 64 then 3
    else if n < 128 then 4 else if n < 255 then 5 else 0
  }

  /** s_tdefl_small_dist_sym. */
  function SmallDistSym(i: nat): (s: nat)
    requires i < 512
    ensures s < 18
  {
    if i < 4 then i
    else if i < 8 then 4 + (i - 4) / 2
    else if i < 16 then 6 + (i - 8) / 4
    else if i < 32 then 8 + (i - 16) / 8
    else if i < 64 then 10 + (i - 32) / 16
    else if i < 128 then 12 + (i - 64) / 32
    else if i < 256 then 14 + (i - 128) / 64
    else 16 + (i - 256) / 128
  }

  /** s_tdefl_small_dist_extra. */
  function SmallDistExtra(i: nat): (e: nat)
    requires i < 512
    ensures e <= 7
  {
    if i < 4 then 0 else if i < 8 then 1 else if i < 16 then 2 else if i < 32 then 3
    else if i < 64 then 4 else if i < 128 then 5 else if i < 256 then 6 else 7
  }

  /** s_tdefl_large_dist_sym. */
  function LargeDistSym(i: nat): (s: nat)
    requires i < 128
    ensures s < 30
  {
    if i < 2 then 0
    else if i < 4 then 18 + (i - 2)
    else if i < 8 then 20 + (i - 4) / 2
    else if i < 16 then 22 + (i - 8) / 4
    else if i < 32 then 24 + (i - 16) / 8
    else if i < 64 then 26 + (i - 32) / 16
    else 28 + (i - 64) / 32
  }

  /** s_tdefl_large_dist_extra. */
  function LargeDistExtra(i: nat): (e: nat)
    requires i < 128
    ensures e <= 13
  {
    if i < 2 then 0 else if i < 4 then 8 else if i < 8 then 9 else if i < 16 then 10
    else if i < 32 then 11 else if i < 64 then 12 else 13
  }

  function DistSym(d: nat): (s: nat)
    requires d < LZ_DICT_SIZE
    ensures s < 30
  {
    if d < 512 then SmallDistSym(d) else LargeDistSym(d / 256)
  }

  function DistExtra(d: nat): (e: nat)
    requires d < LZ_DICT_SIZE
    ensures e <= 13
  {
    if d < 512 then SmallDistExtra(d) else LargeDistExtra(d / 256)
  }

  // ----- the decompressor's tables

  const LENGTH_BASE: seq<nat> := [3, 4, 5, 6, 7, 8, 9, 10, 11, 13, 15, 17, 19, 23, 27, 31, 35, 43, 51, 59, 67, 83, 99,
                                  115, 131, 163, 195, 227, 258, 0, 0]
  const LENGTH_EXTRA: seq<nat> := [0, 0, 0, 0, 0, 0, 0, 0, 1, 1, 1, 1, 2, 2, 2, 2, 3, 3, 3, 3, 4, 4, 4, 4, 5, 5, 5, 5,
                                   0, 0, 0]
  const DIST_BASE: seq<nat> := [1, 2, 3, 4, 5, 7, 9, 13, 17, 25, 33, 49, 65, 97, 129, 193, 257, 385, 513, 769, 1025,
                                1537, 2049, 3073, 4097, 6145, 8193, 12289, 16385, 24577, 0, 0]
  const DIST_EXTRA: seq<nat> := [0, 0, 0, 0, 1, 1, 2, 2, 3, 3, 4, 4, 5, 5, 6, 6, 7, 7, 8, 8, 9, 9, 10, 10, 11, 11, 12,
                                 12, 13, 13, 0, 0]

  lemma SmallPowers()
    ensures Pow2(0) == 1 && Pow2(1) == 2 && Pow2(2) == 4 && Pow2(3) == 8 && Pow2(4) == 16 && Pow2(5) == 32
            && Pow2(6) == 64
    ensures Pow2(7) == 128 && Pow2(8) == 256 && Pow2(9) == 512 && Pow2(10) == 1024 && Pow2(11) == 2048
            && Pow2(12) == 4096 && Pow2(13) == 8192
  {
    assert Pow2(4) == 16;
    assert Pow2(8) == 256;
    assert Pow2(12) == 4096;
  }

  lemma LowIs(n: nat, e: nat, p: nat)
    requires p == Pow2(e)
    ensures Low(n, e) == n % p
  {
  }

  /** The length symbol and its extra bits give the length back. */
  lemma LengthIsReadBack(n: nat)
    requires n < 256
    ensures LENGTH_EXTRA[LenSym(n) - 257] == LenExtra(n)
    ensures LENGTH_BASE[LenSym(n) - 257] + Low(n, LenExtra(n)) == n + MIN_MATCH_LEN
  {
    SmallPowers();
    LowIs(n, LenExtra(n), Pow2(LenExtra(n)));
    hide Low, Pow2;
    var k := LenSym(n) - 257;
    LengthTable(k);
    if n < 8 {
    } else if n < 16 {
    } else if n < 32 {
    } else if n < 64 {
    } else if n < 128 {
    } else if n < 255 {
    }
  }

  /** The regular part of the length table: 4 symbols for each number of extra bits. */
  lemma LengthTable(k: nat)
    requires k <= 28
    ensures k < 8 ==> LENGTH_BASE[k] == k + 3 && LENGTH_EXTRA[k] == 0
    ensures 8 <= k < 12 ==> LENGTH_BASE[k] == 11 + (k - 8) * 2 && LENGTH_EXTRA[k] == 1
    ensures 12 <= k < 16 ==> LENGTH_BASE[k] == 19 + (k - 12) * 4 && LENGTH_EXTRA[k] == 2
    ensures 16 <= k < 20 ==> LENGTH_BASE[k] == 35 + (k - 16) * 8 && LENGTH_EXTRA[k] == 3
    ensures 20 <= k < 24 ==> LENGTH_BASE[k] == 67 + (k - 20) * 16 && LENGTH_EXTRA[k] == 4
    ensures 24 <= k < 28 ==> LENGTH_BASE[k] == 131 + (k - 24) * 32 && LENGTH_EXTRA[k] == 5
    ensures k == 28 ==> LENGTH_BASE[k] == 258 && LENGTH_EXTRA[k] == 0
  {
  }

  /** Two symbols for each number of extra bits. */
  lemma DistTable(k: nat)
    requires k < 30
    ensures k < 4 ==> DIST_BASE[k] == k + 1 && DIST_EXTRA[k] == 0
    ensures k >= 4 ==> DIST_EXTRA[k] == k / 2 - 1
    ensures k == 4 || k == 5 ==> DIST_BASE[k] == 5 + (k - 4) * 2
    ensures k == 6 || k == 7 ==> DIST_BASE[k] == 9 + (k - 6) * 4
    ensures k == 8 || k == 9 ==> DIST_BASE[k] == 17 + (k - 8) * 8
    ensures k == 10 || k == 11 ==> DIST_BASE[k] == 33 + (k - 10) * 16
    ensures k == 12 || k == 13 ==> DIST_BASE[k] == 65 + (k - 12) * 32
    ensures k == 14 || k == 15 ==> DIST_BASE[k] == 129 + (k - 14) * 64
    ensures k == 16 || k == 17 ==> DIST_BASE[k] == 257 + (k - 16) * 128
    ensures k == 18 || k == 19 ==> DIST_BASE[k] == 513 + (k - 18) * 256
    ensures k == 20 || k == 21 ==> DIST_BASE[k] == 1025 + (k - 20) * 512
    ensures k == 22 || k == 23 ==> DIST_BASE[k] == 2049 + (k - 22) * 1024
    ensures k == 24 || k == 25 ==> DIST_BASE[k] == 4097 + (k - 24) * 2048
    ensures k == 26 || k == 27 ==> DIST_BASE[k] == 8193 + (k - 26) * 4096
    ensures k == 28 || k == 29 ==> DIST_BASE[k] == 16385 + (k - 28) * 8192
  {
  }

  lemma SmallDistance(d: nat, p: nat)
    requires d < 512 && p == Pow2(SmallDistExtra(d))
    ensures DIST_EXTRA[SmallDistSym(d)] == SmallDistExtra(d)
    ensures DIST_BASE[SmallDistSym(d)] + d % p == d + 1
  {
    SmallPowers();
    DistTable(SmallDistSym(d));
    hide Pow2;
  }

  lemma LargeDistance(d: nat, p: nat)
    requires 512 <= d < 4096 && p == Pow2(LargeDistExtra(d / 256))
    ensures DIST_EXTRA[LargeDistSym(d / 256)] == LargeDistExtra(d / 256)
    ensures DIST_BASE[LargeDistSym(d / 256)] + d % p == d + 1
  {
    SmallPowers();
    DistTable(LargeDistSym(d / 256));
    hide Pow2;
  }

  lemma LargestDistance(d: nat, p: nat)
    requires 4096 <= d < LZ_DICT_SIZE && p == Pow2(LargeDistExtra(d / 256))
    ensures DIST_EXTRA[LargeDistSym(d / 256)] == LargeDistExtra(d / 256)
    ensures DIST_BASE[LargeDistSym(d / 256)] + d % p == d + 1
  {
    SmallPowers();
    DistTable(LargeDistSym(d / 256));
    hide Pow2;
  }

  /** The distance symbol and its extra bits give the distance back. */
  lemma DistanceIsReadBack(d: nat)
    requires d < LZ_DICT_SIZE
    ensures DIST_EXTRA[DistSym(d)] == DistExtra(d)
    ensures DIST_BASE[DistSym(d)] + Low(d, DistExtra(d)) == d + 1
  {
    LowIs(d, DistExtra(d), Pow2(DistExtra(d)));
    if d < 512 {
      SmallDistance(d, Pow2(DistExtra(d)));
    } else if d < 4096 {
      LargeDistance(d, Pow2(DistExtra(d)));
    } else {
      LargestDistance(d, Pow2(DistExtra(d)));
    }
  }
}
