/** The run-length form in which a dynamic block transmits its code sizes. */
module CodeSizePacking {
  // Section 3.2.7 of RFC 1951: 0..15 stand for themselves, 16 repeats the previous size 3-6 times, 17 and 18 stand
  // for 3-10 and 11-138 zeros. A packed sequence alternates symbols 16..18 with the value of their extra bits.

  import opened Arith
  import opened Wrappers

  function Repeat(x: nat, n: nat): (r: seq<nat>)
    ensures |r| == n && forall i :: 0 <= i < n ==> r[i] == x
  {
    seq(n, _ => x)
  }

  function ExtraBits(sym: nat): nat
    requires 16 <= sym <= 18
  {
    if sym == 16 then 2 else if sym == 17 then 3 else 7
  }

  function RunBase(sym: nat): nat
    requires 16 <= sym <= 18
  {
    if sym == 18 then 11 else 3
  }

  /** What a packed sequence stands for when `out` has been read already; None if it is malformed. */
  function Expand(p: seq<nat>, out: seq<nat>): Option<seq<nat>>
    decreases |p|
  {
    if p == [] then Some(out)
    else if p[0] < 16 then Expand(p[1..], out + [p[0]])
    else if p[0] > 18 || |p| < 2 || p[1] >= Pow2(ExtraBits(p[0])) || (p[0] == 16 && out == []) then None
    else Expand(p[2..], out + Repeat(if p[0] == 16 then out[|out| - 1] else 0, p[1] + RunBase(p[0])))
  }

  /** How often symbol s occurs among the symbols of a packed sequence. */
  function SymbolCount(p: seq<nat>, s: nat): nat
    decreases |p|
  {
    if p == [] then 0
    else (if p[0] == s then 1 else 0) + SymbolCount(if p[0] >= 16 && |p| >= 2 then p[2..] else p[1..], s)
  }

  lemma {:induction false} ExpandAppend(p: seq<nat>, q: seq<nat>, out: seq<nat>)
    requires Expand(p, out).Some?
    ensures Expand(p + q, out) == Expand(q, Expand(p, out).value)
    ensures forall s :: SymbolCount(p + q, s) == SymbolCount(p, s) + SymbolCount(q, s)
    decreases |p|
  {
    if p == [] {
      assert p + q == q;
    } else if p[0] < 16 {
      assert (p + q)[1..] == p[1..] + q;
      ExpandAppend(p[1..], q, out + [p[0]]);
    } else {
      assert (p + q)[2..] == p[2..] + q;
      ExpandAppend(p[2..], q, out + Repeat(if p[0] == 16 then out[|out| - 1] else 0, p[1] + RunBase(p[0])));
    }
  }

  lemma {:induction false} ExpandGrows(p: seq<nat>, out: seq<nat>)
    requires Expand(p, out).Some?
    ensures out <= Expand(p, out).value && |p| <= |Expand(p, out).value| - |out|
    decreases |p|
  {
    if p != [] {
      if p[0] < 16 {
        ExpandGrows(p[1..], out + [p[0]]);
      } else {
        ExpandGrows(p[2..], out + Repeat(if p[0] == 16 then out[|out| - 1] else 0, p[1] + RunBase(p[0])));
      }
    }
  }

  /** p stands for out, and hist counts its symbols. */
  ghost predicate Packs(p: seq<nat>, out: seq<nat>, hist: seq<nat>) {
    && Expand(p, []) == Some(out) && |hist| == 19
    && forall s :: 0 <= s < 19 ==> hist[s] == SymbolCount(p, s)
  }

  lemma PackSize(p: seq<nat>, out: seq<nat>, hist: seq<nat>, c: nat)
    requires Packs(p, out, hist) && c < 16
    ensures Packs(p + [c], out + [c], hist[c := hist[c] + 1])
  {
    ExpandAppend(p, [c], []);
    assert [c][1..] == [];
    assert Expand([c], out) == Expand([], out + [c]);
    assert forall s :: SymbolCount([c], s) == if s == c then 1 else 0;
  }

  lemma PackRun(p: seq<nat>, out: seq<nat>, hist: seq<nat>, sym: nat, extra: nat, x: nat)
    requires Packs(p, out, hist) && 16 <= sym <= 18 && extra < Pow2(ExtraBits(sym))
    requires if sym == 16 then out != [] && x == out[|out| - 1] else x == 0
    ensures Packs(p + [sym, extra], out + Repeat(x, extra + RunBase(sym)), hist[sym := hist[sym] + 1])
  {
    var q := [sym, extra];
    ExpandAppend(p, q, []);
    assert q[2..] == [];
    assert Expand(q, out) == Expand(q[2..], out + Repeat(x, extra + RunBase(sym)));
    assert forall s :: SymbolCount(q, s) == (if s == sym then 1 else 0) + SymbolCount(q[2..], s);
  }

  lemma {:induction false} PackMany(p: seq<nat>, out: seq<nat>, hist: seq<nat>, c: nat, n: nat)
    requires Packs(p, out, hist) && c < 16
    ensures Packs(p + Repeat(c, n), out + Repeat(c, n), hist[c := hist[c] + n])
  {
    hide Packs, Expand;
    if n == 0 {
      assert p + Repeat(c, 0) == p && out + Repeat(c, 0) == out;
      HistSize(p, out, hist);
      assert hist[c := hist[c] + n] == hist;
    } else {
      HistSize(p, out, hist);
      var p1, out1, h1 := p + Repeat(c, n - 1), out + Repeat(c, n - 1), hist[c := hist[c] + (n - 1)];
      PackMany(p, out, hist, c, n - 1);
      PackSize(p1, out1, h1, c);
      RepeatMore(p, c, n);
      RepeatMore(out, c, n);
      assert hist[c := hist[c] + n] == h1[c := h1[c] + 1];
    }
  }

  lemma HistSize(p: seq<nat>, out: seq<nat>, hist: seq<nat>)
    requires Packs(p, out, hist)
    ensures |hist| == 19
  {
  }

  lemma RepeatMore(s: seq<nat>, c: nat, n: nat)
    requires n > 0
    ensures s + Repeat(c, n) == s + Repeat(c, n - 1) + [c]
  {
    assert Repeat(c, n) == Repeat(c, n - 1) + [c];
  }

  // ----- runs of sizes that stand for themselves

  /** The sizes at the end of p that stand for themselves and are equal: which size, and how many; (16, 0) if there is
      none. None if there is such a run of more than two zeros or more than three other sizes anywhere. */
  function RunAfter(p: seq<nat>, c: nat, n: nat): Option<(nat, nat)>
    decreases |p|
  {
    if p == [] then Some((c, n))
    else if p[0] >= 16 then RunAfter(if |p| >= 2 then p[2..] else [], 16, 0)
    else
      var m := if p[0] == c then n + 1 else 1;
      if m > (if p[0] == 0 then 2 else 3) then None else RunAfter(p[1..], p[0], m)
  }

  function RunAtEnd(p: seq<nat>): Option<(nat, nat)> {
    RunAfter(p, 16, 0)
  }

  lemma {:induction false} RunAppend(p: seq<nat>, q: seq<nat>, c: nat, n: nat, out: seq<nat>)
    requires Expand(p, out).Some? && RunAfter(p, c, n).Some?
    ensures var (d, m) := RunAfter(p, c, n).value; RunAfter(p + q, c, n) == RunAfter(q, d, m)
    decreases |p|
  {
    if p == [] {
      assert p + q == q;
    } else if p[0] < 16 {
      assert (p + q)[1..] == p[1..] + q;
      RunAppend(p[1..], q, p[0], if p[0] == c then n + 1 else 1, out + [p[0]]);
    } else {
      assert (p + q)[2..] == p[2..] + q;
      RunAppend(p[2..], q, 16, 0, out + Repeat(if p[0] == 16 then out[|out| - 1] else 0, p[1] + RunBase(p[0])));
    }
  }

  lemma RunOfSize(p: seq<nat>, c: nat)
    requires Expand(p, []).Some? && RunAtEnd(p).Some? && c < 16
    requires RunAtEnd(p).value.0 == c ==> RunAtEnd(p).value.1 < if c == 0 then 2 else 3
    ensures RunAtEnd(p + [c]) == Some((c, if RunAtEnd(p).value.0 == c then RunAtEnd(p).value.1 + 1 else 1))
  {
    RunAppend(p, [c], 16, 0, []);
    assert [c][1..] == [];
  }

  /** Up to two more equal sizes. */
  lemma RunOfFew(p: seq<nat>, out: seq<nat>, hist: seq<nat>, c: nat, n: nat)
    requires Packs(p, out, hist) && RunAtEnd(p).Some? && c < 16 && n < 3
    requires RunAtEnd(p).value.0 == c ==> RunAtEnd(p).value.1 <= if c == 0 then 0 else 1
    ensures RunAtEnd(p + Repeat(c, n)).Some?
    ensures n > 0 ==> RunAtEnd(p + Repeat(c, n)).value.0 == c
    ensures n == 0 ==> p + Repeat(c, n) == p
  {
    if n == 0 {
      assert p + Repeat(c, 0) == p;
    } else {
      RunOfSize(p, c);
      PackSize(p, out, hist, c);
      assert p + Repeat(c, 1) == p + [c];
      if n == 2 {
        RunOfSize(p + [c], c);
        assert p + Repeat(c, 2) == p + [c] + [c];
      }
    }
  }

  lemma RunOfSymbol(p: seq<nat>, sym: nat, extra: nat)
    requires Expand(p, []).Some? && RunAtEnd(p).Some? && sym >= 16
    ensures RunAtEnd(p + [sym, extra]) == Some((16, 0))
  {
    RunAppend(p, [sym, extra], 16, 0, []);
    assert [sym, extra][2..] == [];
  }

  /** Between two sizes, the last of which is prev, with z zeros pending: there is room for what may still be put
      down. */
  ghost predicate Short(p: seq<nat>, z: nat, prev: nat) {
    && RunAtEnd(p).Some?
    && var (c, n) := RunAtEnd(p).value;
       c == 16 || (if prev == 0 then z > 0 && c != 0 else c == prev && n <= 1)
  }

  lemma ShortRepeat(p: seq<nat>, hist: seq<nat>, r: nat, prev: nat, sizes: seq<nat>)
    requires Pending(p, hist, 0, r, prev, sizes) && r > 0 && Short(p, 0, prev)
    ensures r < 3 ==> RunAtEnd(p + Repeat(prev, r)).Some? && RunAtEnd(p + Repeat(prev, r)).value.0 == prev
    ensures r >= 3 ==> RunAtEnd(p + [16, r - 3]) == Some((16, 0))
  {
    var done := Expand(p, []).value;
    if r < 3 { RunOfFew(p, done, hist, prev, r); } else { RunOfSymbol(p, 16, r - 3); }
  }

  lemma ShortZeros(p: seq<nat>, hist: seq<nat>, z: nat, sizes: seq<nat>)
    requires Pending(p, hist, z, 0, 0, sizes) && z > 0 && Short(p, z, 0)
    ensures z < 3 ==> RunAtEnd(p + Repeat(0, z)).Some? && RunAtEnd(p + Repeat(0, z)).value.0 == 0
    ensures 3 <= z <= 10 ==> RunAtEnd(p + [17, z - 3]) == Some((16, 0))
    ensures z >= 11 ==> RunAtEnd(p + [18, z - 11]) == Some((16, 0))
  {
    var done := Expand(p, []).value;
    if z < 3 {
      RunOfFew(p, done, hist, 0, z);
    } else {
      RunOfSymbol(p, if z <= 10 then 17 else 18, if z <= 10 then z - 3 else z - 11);
    }
  }

  lemma ShortNew(p: seq<nat>, hist: seq<nat>, prev: nat, c: nat, sizes: seq<nat>)
    requires Pending(p, hist, 0, 0, prev, sizes) && 1 <= c < 16 && RunAtEnd(p).Some? && RunAtEnd(p).value.0 != c
    ensures Short(p + [c], 0, c)
  {
    RunOfSize(p, c);
  }

  lemma ShortIs(p: seq<nat>, z: nat, prev: nat)
    requires Short(p, z, prev)
    ensures RunAtEnd(p).Some?
    ensures RunAtEnd(p).value.0 == 16 || (if prev == 0 then z > 0 && RunAtEnd(p).value.0 != 0
                                          else RunAtEnd(p).value.0 == prev)
  {
  }

  lemma IsShort(p: seq<nat>, z: nat, prev: nat)
    requires RunAtEnd(p).Some?
    requires RunAtEnd(p).value.0 == 16 || (prev == 0 && z > 0 && RunAtEnd(p).value.0 != 0)
    ensures Short(p, z, prev)
  {
  }

  // ----- the compressor's side

  /** While the sizes are packed: p stands for all of them but a pending run of z zeros or of r times prev. */
  ghost predicate Pending(p: seq<nat>, hist: seq<nat>, z: nat, r: nat, prev: nat, sizes: seq<nat>) {
    && Expand(p, []).Some?
    && var done := Expand(p, []).value;
    && Packs(p, done, hist)
    && sizes == done + Repeat(0, z) + Repeat(prev, r)
    && z <= 138 && r <= 6 && (z > 0 ==> r == 0 && prev == 0) && (r > 0 ==> prev != 0)
    && (z == 0 ==> if done == [] then prev == 0xFF && r == 0 else prev == done[|done| - 1] < 16)
  }

  lemma FlushedRepeat(p: seq<nat>, hist: seq<nat>, r: nat, prev: nat, sizes: seq<nat>)
    requires Pending(p, hist, 0, r, prev, sizes) && r > 0
    ensures prev < 16
    ensures r < 3 ==> Pending(p + Repeat(prev, r), hist[prev := hist[prev] + r], 0, 0, prev, sizes)
    ensures r >= 3 ==> Pending(p + [16, r - 3], hist[16 := hist[16] + 1], 0, 0, prev, sizes)
  {
    var done := Expand(p, []).value;
    assert sizes == done + Repeat(prev, r);
    assert sizes == sizes + Repeat(0, 0) + Repeat(prev, 0);
    assert sizes[|sizes| - 1] == prev;
    if r < 3 {
      PackMany(p, done, hist, prev, r);
    } else {
      assert Pow2(2) == 4;
      PackRun(p, done, hist, 16, r - 3, prev);
    }
  }

  lemma FlushedZeros(p: seq<nat>, hist: seq<nat>, z: nat, sizes: seq<nat>)
    requires Pending(p, hist, z, 0, 0, sizes) && z > 0
    ensures z < 3 ==> Pending(p + Repeat(0, z), hist[0 := hist[0] + z], 0, 0, 0, sizes)
    ensures 3 <= z <= 10 ==> Pending(p + [17, z - 3], hist[17 := hist[17] + 1], 0, 0, 0, sizes)
    ensures z >= 11 ==> Pending(p + [18, z - 11], hist[18 := hist[18] + 1], 0, 0, 0, sizes)
  {
    var done := Expand(p, []).value;
    assert sizes == done + Repeat(0, z);
    assert sizes == sizes + Repeat(0, 0) + Repeat(0, 0);
    assert sizes[|sizes| - 1] == 0;
    assert Pow2(3) == 8 && Pow2(7) == 128;
    if z < 3 {
      PackMany(p, done, hist, 0, z);
    } else if z <= 10 {
      PackRun(p, done, hist, 17, z - 3, 0);
    } else {
      PackRun(p, done, hist, 18, z - 11, 0);
    }
  }

  lemma OneMoreZero(p: seq<nat>, hist: seq<nat>, z: nat, prev: nat, sizes: seq<nat>)
    requires Pending(p, hist, z, 0, prev, sizes) && z < 138
    ensures Pending(p, hist, z + 1, 0, 0, sizes + [0])
  {
    assert Repeat(0, z + 1) == Repeat(0, z) + [0];
  }

  lemma OneMoreRepeat(p: seq<nat>, hist: seq<nat>, r: nat, c: nat, sizes: seq<nat>)
    requires Pending(p, hist, 0, r, c, sizes) && r < 6 && 1 <= c < 16
    ensures Pending(p, hist, 0, r + 1, c, sizes + [c])
  {
    assert Repeat(c, r + 1) == Repeat(c, r) + [c];
  }

  lemma OneNewSize(p: seq<nat>, hist: seq<nat>, prev: nat, c: nat, sizes: seq<nat>)
    requires Pending(p, hist, 0, 0, prev, sizes) && 1 <= c < 16
    ensures Pending(p + [c], hist[c := hist[c] + 1], 0, 0, c, sizes + [c])
  {
    var done := Expand(p, []).value;
    assert sizes == done;
    PackSize(p, done, hist, c);
  }

  lemma PendingRoom(p: seq<nat>, hist: seq<nat>, z: nat, r: nat, prev: nat, sizes: seq<nat>)
    requires Pending(p, hist, z, r, prev, sizes)
    ensures |p| + z + r <= |sizes| && |hist| == 19
  {
    ExpandGrows(p, []);
  }

  lemma Settle(p: seq<nat>, hist: seq<nat>, z: nat, r: nat, prev: nat, sizes: seq<nat>)
    requires Pending(p, hist, z, r, prev, sizes)
    ensures z == 0 ==> Pending(p, hist, 0, r, prev, sizes)
    ensures r == 0 ==> Pending(p, hist, z, 0, prev, sizes)
    ensures z > 0 ==> r == 0 && prev == 0
    ensures z == 0 && r == 0 ==> Packs(p, sizes, hist)
  {
    if z == 0 && r == 0 {
      assert sizes == Expand(p, []).value;
    }
  }

  /** TDEFL_RLE_PREV_CODE_SIZE: writes out a pending repetition. */
  method FlushRepeat(packed: array<nat>, np: nat, huffCount: array<nat>, prev: nat, r: nat, ghost z: nat,
                     ghost sizes: seq<nat>)
    returns (np': nat)
    requires packed != huffCount && huffCount.Length == 19 && np <= packed.Length && |sizes| <= packed.Length
    requires Pending(packed[..np], huffCount[..], z, r, prev, sizes)
    requires RunAtEnd(packed[..np]).Some? && (r > 0 ==> Short(packed[..np], z, prev))
    modifies packed, huffCount
    ensures np' <= packed.Length && Pending(packed[..np'], huffCount[..], z, 0, prev, sizes)
    ensures r == 0 ==> packed[..np'] == old(packed[..np])
    ensures RunAtEnd(packed[..np']).Some? && (r > 0 ==> RunAtEnd(packed[..np']).value.0 == if r < 3 then prev else 16)
  {
    np' := np;
    ghost var p, h := packed[..np], huffCount[..];
    PendingRoom(p, h, z, r, prev, sizes);
    Settle(p, h, z, r, prev, sizes);
    if r > 0 {
      FlushedRepeat(p, h, r, prev, sizes);
      ShortRepeat(p, h, r, prev, sizes);
      hide Pending, Short, RunAtEnd;
      if r < 3 {
        huffCount[prev] := huffCount[prev] + r;
        for i := 0 to r
          invariant np' == np + i && packed[..np'] == p + Repeat(prev, i) && huffCount[..] == h[prev := h[prev] + r]
        {
          packed[np'] := prev;
          np' := np' + 1;
        }
      } else {
        RepeatRoom(p, h, r, prev, sizes);
        huffCount[16] := huffCount[16] + 1;
        packed[np'], packed[np' + 1] := 16, r - 3;
        np' := np' + 2;
        assert packed[..np'] == p + [16, r - 3];
        assert huffCount[..] == h[16 := h[16] + 1];
      }
    }
  }

  lemma RepeatRoom(p: seq<nat>, hist: seq<nat>, r: nat, prev: nat, sizes: seq<nat>)
    requires Pending(p, hist, 0, r, prev, sizes)
    ensures |p| + r <= |sizes|
  {
    PendingRoom(p, hist, 0, r, prev, sizes);
  }

  /** TDEFL_RLE_ZERO_CODE_SIZE: writes out pending zeros. */
  method FlushZeros(packed: array<nat>, np: nat, huffCount: array<nat>, prev: nat, z: nat, ghost r: nat,
                    ghost sizes: seq<nat>)
    returns (np': nat)
    requires packed != huffCount && huffCount.Length == 19 && np <= packed.Length && |sizes| <= packed.Length
    requires Pending(packed[..np], huffCount[..], z, r, prev, sizes) && (z > 0 ==> Short(packed[..np], z, prev))
    modifies packed, huffCount
    ensures np' <= packed.Length && Pending(packed[..np'], huffCount[..], 0, r, prev, sizes)
    ensures z == 0 ==> packed[..np'] == old(packed[..np])
    ensures z > 0 ==>
            RunAtEnd(packed[..np']).Some? && RunAtEnd(packed[..np']).value.0 == if z < 3 then 0 else 16
  {
    np' := np;
    ghost var p, h := packed[..np], huffCount[..];
    PendingRoom(p, h, z, r, prev, sizes);
    if z > 0 {
      Settle(p, h, z, r, prev, sizes);
      FlushedZeros(p, h, z, sizes);
      ShortZeros(p, h, z, sizes);
      hide Pending, Short, RunAtEnd;
      if z < 3 {
        huffCount[0] := huffCount[0] + z;
        for i := 0 to z
          invariant np' == np + i && packed[..np'] == p + Repeat(0, i) && huffCount[..] == h[0 := h[0] + z]
        {
          packed[np'] := 0;
          np' := np' + 1;
        }
      } else if z <= 10 {
        huffCount[17] := huffCount[17] + 1;
        packed[np'], packed[np' + 1] := 17, z - 3;
        np' := np' + 2;
        assert packed[..np'] == p + [17, z - 3];
        assert huffCount[..] == h[17 := h[17] + 1];
      } else {
        huffCount[18] := huffCount[18] + 1;
        packed[np'], packed[np' + 1] := 18, z - 11;
        np' := np' + 2;
        assert packed[..np'] == p + [18, z - 11];
        assert huffCount[..] == h[18 := h[18] + 1];
      }
    }
  }

  /** One code size of the packing loop in tdefl_start_dynamic_block. */
  method PackOne(packed: array<nat>, np: nat, huffCount: array<nat>, z: nat, r: nat, prev: nat, codeSize: nat,
                 ghost sizes: seq<nat>)
    returns (np': nat, z': nat, r': nat)
    requires packed != huffCount && huffCount.Length == 19 && np <= packed.Length && |sizes| < packed.Length
    requires Pending(packed[..np], huffCount[..], z, r, prev, sizes) && z < 138 && r < 6 && codeSize < 16
    requires Short(packed[..np], z, prev)
    modifies packed, huffCount
    ensures np' <= packed.Length && z' < 138 && r' < 6 && Short(packed[..np'], z', codeSize)
    ensures Pending(packed[..np'], huffCount[..], z', r', codeSize, sizes + [codeSize])
  {
    hide *;
    np', z', r' := np, z, r;
    ShortIs(packed[..np], z, prev);
    Settle(packed[..np], huffCount[..], z, r, prev, sizes);
    if codeSize == 0 {
      np' := FlushRepeat(packed, np', huffCount, prev, r', z, sizes);
      r' := 0;
      OneMoreZero(packed[..np'], huffCount[..], z, prev, sizes);
      z' := z' + 1;
      IsShort(packed[..np'], z', 0);
      if z' == 138 {
        np' := FlushZeros(packed, np', huffCount, 0, z', 0, sizes + [0]);
        z' := 0;
        IsShort(packed[..np'], 0, 0);
      }
    } else {
      np' := FlushZeros(packed, np', huffCount, prev, z', r, sizes);
      z' := 0;
      if codeSize != prev {
        np' := FlushRepeat(packed, np', huffCount, prev, r', 0, sizes);
        r' := 0;
        np' := PackNew(packed, np', huffCount, prev, codeSize, sizes);
      } else {
        OneMoreRepeat(packed[..np'], huffCount[..], r', codeSize, sizes);
        r' := r' + 1;
        if r' == 6 {
          np' := FlushRepeat(packed, np', huffCount, prev, r', 0, sizes + [codeSize]);
          r' := 0;
          IsShort(packed[..np'], 0, codeSize);
        }
      }
    }
  }

  /** A size other than the one before is put down as it is. */
  method PackNew(packed: array<nat>, np: nat, huffCount: array<nat>, ghost prev: nat, codeSize: nat,
                 ghost sizes: seq<nat>)
    returns (np': nat)
    requires packed != huffCount && huffCount.Length == 19 && np <= packed.Length && |sizes| < packed.Length
    requires Pending(packed[..np], huffCount[..], 0, 0, prev, sizes) && 1 <= codeSize < 16
    requires RunAtEnd(packed[..np]).Some? && RunAtEnd(packed[..np]).value.0 != codeSize
    modifies packed, huffCount
    ensures np' <= packed.Length && Pending(packed[..np'], huffCount[..], 0, 0, codeSize, sizes + [codeSize])
    ensures Short(packed[..np'], 0, codeSize)
  {
    hide *;
    ghost var p, h := packed[..np], huffCount[..];
    OneNewSize(p, h, prev, codeSize, sizes);
    ShortNew(p, h, prev, codeSize, sizes);
    PendingRoom(p, h, 0, 0, prev, sizes);
    huffCount[codeSize] := huffCount[codeSize] + 1;
    packed[np] := codeSize;
    np' := np + 1;
    assert packed[..np'] == p + [codeSize] && huffCount[..] == h[codeSize := h[codeSize] + 1];
  }

  /** Packs the code sizes: the packed form stands for them, is no longer than they are, and huffCount counts its
      symbols. No more than two zeros or three other equal sizes in a row are left to stand for themselves. */
  method PackCodeSizes(codeSizes: seq<nat>, packed: array<nat>, huffCount: array<nat>) returns (np: nat)
    requires packed != huffCount && huffCount.Length == 19 && |codeSizes| <= packed.Length
    requires forall i :: 0 <= i < |codeSizes| ==> codeSizes[i] < 16
    modifies packed, huffCount
    ensures np <= |codeSizes| && np <= packed.Length && Packs(packed[..np], codeSizes, huffCount[..])
    ensures RunAtEnd(packed[..np]).Some?
  {
    np := 0;
    var z, r, prev := 0, 0, 0xFF;
    for i := 0 to 19
      invariant forall s :: 0 <= s < i ==> huffCount[s] == 0
    {
      huffCount[i] := 0;
    }
    assert Expand([], []) == Some([]);
    for i := 0 to |codeSizes|
      invariant np <= packed.Length && z < 138 && r < 6
      invariant Pending(packed[..np], huffCount[..], z, r, prev, codeSizes[..i]) && Short(packed[..np], z, prev)
    {
      hide Pending, Short;
      assert codeSizes[..i + 1] == codeSizes[..i] + [codeSizes[i]];
      np, z, r := PackOne(packed, np, huffCount, z, r, prev, codeSizes[i], codeSizes[..i]);
      prev := codeSizes[i];
    }
    assert codeSizes[..|codeSizes|] == codeSizes;
    Settle(packed[..np], huffCount[..], z, r, prev, codeSizes);
    hide Pending;
    ShortIs(packed[..np], z, prev);
    if r > 0 {
      np := FlushRepeat(packed, np, huffCount, prev, r, z, codeSizes);
    } else {
      np := FlushZeros(packed, np, huffCount, prev, z, 0, codeSizes);
    }
    Settle(packed[..np], huffCount[..], 0, 0, prev, codeSizes);
    PendingRoom(packed[..np], huffCount[..], 0, 0, prev, codeSizes);
  }

  // ----- the decompressor's side

  /** The first k entries of p stand for exactly `total` sizes. */
  ghost predicate Reaches(p: seq<nat>, k: nat, total: nat) {
    k <= |p| && Expand(p[..k], []).Some? && |Expand(p[..k], []).value| == total
  }

  /** Reading goes on at `used` with the sizes `out`. */
  ghost predicate ReadTo(p: seq<nat>, used: nat, out: seq<nat>) {
    used <= |p| && Expand(p[..used], []) == Some(out)
  }

  lemma ReadSize(p: seq<nat>, used: nat, out: seq<nat>)
    requires ReadTo(p, used, out) && used < |p| && p[used] < 16
    ensures ReadTo(p, used + 1, out + [p[used]])
  {
    var q := [p[used]];
    assert p[..used + 1] == p[..used] + q;
    ExpandAppend(p[..used], q, []);
    assert q[1..] == [];
    assert Expand(q, out) == Expand(q[1..], out + [p[used]]);
  }

  lemma ReadRun(p: seq<nat>, used: nat, out: seq<nat>)
    requires ReadTo(p, used, out) && used + 1 < |p| && 16 <= p[used] <= 18 && p[used + 1] < Pow2(ExtraBits(p[used]))
    requires p[used] == 16 ==> out != []
    ensures ReadTo(p, used + 2,
                   out + Repeat(if p[used] == 16 then out[|out| - 1] else 0, p[used + 1] + RunBase(p[used])))
    ensures p[used + 1] + RunBase(p[used]) <= 138
  {
    var q := [p[used], p[used + 1]];
    assert p[..used + 2] == p[..used] + q;
    ExpandAppend(p[..used], q, []);
    assert q[2..] == [];
    assert Pow2(2) == 4 && Pow2(3) == 8 && Pow2(7) == 128;
  }

  /** A shorter prefix stands for no more sizes. */
  lemma EarlierIsLess(p: seq<nat>, used: nat, out: seq<nat>, k: nat)
    requires ReadTo(p, used, out) && k <= used && Expand(p[..k], []).Some?
    ensures |Expand(p[..k], []).value| <= |out|
  {
    assert p[..used] == p[..k] + p[k..used];
    ExpandAppend(p[..k], p[k..used], []);
    ExpandGrows(p[k..used], Expand(p[..k], []).value);
  }

  /** A longer prefix stands for more sizes, unless it breaks off or is malformed. */
  lemma LaterIsMore(p: seq<nat>, used: nat, out: seq<nat>, k: nat)
    requires ReadTo(p, used, out) && used < k <= |p| && Expand(p[..k], []).Some?
    ensures |Expand(p[..k], []).value| > |out|
    ensures p[used] < 16
            || (used + 1 < k && p[used] <= 18 && p[used + 1] < Pow2(ExtraBits(p[used]))
                && (p[used] == 16 ==> out != []))
  {
    var q := p[used..k];
    assert p[..k] == p[..used] + q;
    ExpandAppend(p[..used], q, []);
    ExpandGrows(q, out);
    assert q[0] == p[used] && (|q| >= 2 ==> q[1] == p[used + 1]);
  }

  /** Reading stopped before `total` sizes because no longer prefix is well formed. */
  lemma NeverReaches(p: seq<nat>, used: nat, out: seq<nat>, total: nat)
    requires ReadTo(p, used, out) && |out| < total
    requires used == |p|
             || (p[used] >= 16 && (used + 1 == |p| || p[used] > 18 || p[used + 1] >= Pow2(ExtraBits(p[used]))
                                               || (p[used] == 16 && out == [])))
    ensures forall k :: !Reaches(p, k, total)
  {
    forall k: nat | Reaches(p, k, total) ensures false {
      if k <= used { EarlierIsLess(p, used, out, k); } else { LaterIsMore(p, used, out, k); }
    }
  }

  /** Reading went past `total` sizes with one run. */
  lemma SkipsOver(p: seq<nat>, used: nat, out: seq<nat>, used': nat, out': seq<nat>, total: nat)
    requires ReadTo(p, used, out) && |out| < total && ReadTo(p, used', out') && |out'| > total
    requires used' == used + 1 || (used' == used + 2 && p[used] >= 16)
    ensures forall k :: !Reaches(p, k, total)
  {
    forall k: nat | Reaches(p, k, total) ensures false {
      if k <= used {
        EarlierIsLess(p, used, out, k);
      } else if k < used' {
        LaterIsMore(p, used, out, k);
      } else if k == used' {
      } else {
        LaterIsMore(p, used', out', k);
      }
    }
  }

  /** Reads symbols and extra bits from p until `total` sizes are there. It succeeds exactly if some prefix
      of p stands for `total` sizes, and then delivers those: it fails on a leading repetition, on input
      that ends too early, and on a run that goes past the total. (Values that do not fit their field, and
      symbols above 18, cannot come out of a bit stream; they count as malformed.) */
  method UnpackCodeSizes(p: seq<nat>, total: nat, lenCodes: array<nat>) returns (ok: bool, used: nat)
    requires total <= 288 + 32 && lenCodes.Length == 288 + 32 + 137
    modifies lenCodes
    ensures ok <==> exists k :: Reaches(p, k, total)
    ensures ok ==> used <= |p| && Expand(p[..used], []) == Some(lenCodes[..total])
  {
    used := 0;
    var counter := 0;
    assert p[..0] == [] && lenCodes[..0] == [];
    while counter < total
      invariant 0 <= counter <= lenCodes.Length && ReadTo(p, used, lenCodes[..counter])
      invariant counter > total ==> forall k :: !Reaches(p, k, total)
      decreases |p| - used
    {
      ghost var out := lenCodes[..counter];
      if used == |p| {
        NeverReaches(p, used, out, total);
        return false, used;
      }
      var dist := p[used];
      if dist < 16 {
        ReadSize(p, used, out);
        lenCodes[counter] := dist;
        counter := counter + 1;
        used := used + 1;
        assert lenCodes[..counter] == out + [dist];
      } else {
        if used + 1 == |p| || dist > 18 || p[used + 1] >= Pow2(ExtraBits(dist)) || (dist == 16 && counter == 0) {
          NeverReaches(p, used, out, total);
          return false, used;
        }
        ReadRun(p, used, out);
        var s := p[used + 1] + RunBase(dist);
        counter := FillRun(lenCodes, counter, s, if dist == 16 then lenCodes[counter - 1] else 0);
        if counter > total { SkipsOver(p, used, out, used + 2, lenCodes[..counter], total); }
        used := used + 2;
      }
    }
    ok := counter == total;
    assert ok ==> Reaches(p, used, total);
  }

  method FillRun(lenCodes: array<nat>, counter: nat, s: nat, v: nat) returns (counter': nat)
    requires counter + s <= lenCodes.Length
    modifies lenCodes
    ensures counter' == counter + s && lenCodes[..counter'] == old(lenCodes[..counter]) + Repeat(v, s)
  {
    ghost var out := lenCodes[..counter];
    for k := 0 to s
      invariant lenCodes[..counter + k] == out + Repeat(v, k)
    {
      lenCodes[counter + k] := v;
    }
    counter' := counter + s;
  }

  /** What the compressor packs, the decompressor reads back. */
  method PackThenUnpack(codeSizes: seq<nat>) returns (lenCodes: array<nat>, ok: bool, np: nat, used: nat)
    requires |codeSizes| <= 288 + 32 && forall i :: 0 <= i < |codeSizes| ==> codeSizes[i] < 16
    ensures ok && lenCodes.Length >= |codeSizes| && lenCodes[..|codeSizes|] == codeSizes && used == np <= |codeSizes|
  {
    var packed, huffCount := new nat[320](_ => 0), new nat[19](_ => 0);
    np := PackCodeSizes(codeSizes, packed, huffCount);
    lenCodes := new nat[457](_ => 0);
    var p := packed[..np];
    assert p[..np] == p;
    assert Reaches(p, np, |codeSizes|);
    ok, used := UnpackCodeSizes(p, |codeSizes|, lenCodes);
    if used < np { LaterIsMore(p, used, lenCodes[..|codeSizes|], np); }
  }
}
