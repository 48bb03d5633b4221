/** The decoder's tables read back what the encoder's table writes. */
module HuffmanRoundTrip {
  import opened Arith
  import opened Bits
  import opened CanonicalCode
  import MinRedundancy
  import HuffmanTable
  import DecodeTable
  import NearOptimal

  /** The bits of a symbol, lowest first, followed by anything, begin with the symbol's code. */
  lemma EncodedBegins(sizes: seq<nat>, s: nat, rest: nat)
    requires s < |sizes|
    ensures Begins(sizes, s, RevCode(sizes, s) + rest * Pow2(sizes[s]))
  {
    Unique(RevCode(sizes, s) + rest * Pow2(sizes[s]), sizes[s], rest, RevCode(sizes, s));
  }

  lemma {:induction false} UnitsAtLimit(sizes: seq<nat>, k: nat, m: nat, t: nat)
    requires k <= m <= t
    ensures Units(sizes, k, t) == Units(sizes, k, m) * Pow2(t - m)
  {
    if k > 0 {
      UnitsAtLimit(sizes, k - 1, m, t);
      Pow2Add(m - k, t - m);
      MulAssoc(CountOf(sizes, k, |sizes|), Pow2(m - k), Pow2(t - m));
      DistributeRight(Units(sizes, k - 1, m), CountOf(sizes, k, |sizes|) * Pow2(m - k), Pow2(t - m));
    }
  }

  lemma {:induction false} NoneAbove(sizes: seq<nat>, l: nat, n: nat)
    requires n <= |sizes| && forall i :: 0 <= i < |sizes| ==> sizes[i] < l
    ensures CountOf(sizes, l, n) == 0
  {
    if n > 0 { NoneAbove(sizes, l, n - 1); }
  }

  lemma {:induction false} UnitsBeyond(sizes: seq<nat>, m: nat, k: nat, t: nat)
    requires m <= k <= t && forall i :: 0 <= i < |sizes| ==> sizes[i] <= m
    ensures Units(sizes, k, t) == Units(sizes, m, t)
    decreases k
  {
    if m < k {
      UnitsBeyond(sizes, m, k - 1, t);
      NoneAbove(sizes, k, |sizes|);
    }
  }

  /** A code that fills the space of the encoder's limit fills the space of the decoder's 15 bits. */
  lemma CompleteAt15(sizes: seq<nat>, limit: nat)
    requires limit <= 15 && Complete(sizes, limit)
    ensures Complete(sizes, 15)
  {
    UnitsBeyond(sizes, limit, 15, 15);
    UnitsAtLimit(sizes, limit, limit, 15);
    Pow2Add(limit, 15 - limit);
  }

  lemma {:induction false} CountAtMost(sizes: seq<nat>, l: nat, n: nat, u: nat)
    requires n <= |sizes| && l >= 1 && forall i :: 0 <= i < |sizes| && i != u ==> sizes[i] == 0
    ensures CountOf(sizes, l, n) == if u < n && sizes[u] == l then 1 else 0
  {
    if n > 0 { CountAtMost(sizes, l, n - 1, u); }
  }

  lemma {:induction false} UsedAtMost(sizes: seq<nat>, k: nat, u: nat)
    requires forall i :: 0 <= i < |sizes| && i != u ==> sizes[i] == 0
    ensures DecodeTable.UsedSyms(sizes, k) == if u < |sizes| && 1 <= sizes[u] <= k then 1 else 0
  {
    if k > 0 {
      UsedAtMost(sizes, k - 1, u);
      CountAtMost(sizes, k, |sizes|, u);
    }
  }

  /** The decoder accepts every table that the encoder makes. */
  lemma EncoderTableIsAccepted(count: seq<nat>, sizes: seq<nat>, codes: seq<nat>, limit: nat,
                               A: seq<MinRedundancy.SymFreq>, l: seq<nat>)
    requires 1 <= limit <= 15 && HuffmanTable.Table(count, sizes, codes, limit)
    requires HuffmanTable.Lists(A, count, |count|) && |l| == |A| && HuffmanTable.Best(sizes, A, l, limit)
    ensures DecodeTable.Accepts(sizes)
  {
    if |A| >= 2 {
      CompleteAt15(sizes, limit);
    } else {
      var u := if |A| == 1 then A[0].sym else |sizes|;
      if |A| == 1 {
        forall i | 0 <= i < |sizes| && sizes[i] != 0 ensures i == u {
          var k :| 0 <= k < |A| && A[k].sym == i;
        }
      }
      UsedAtMost(sizes, 15, u);
    }
  }

  /** Code the symbol s with the table for the counts, then decode: the symbol comes back, with its length. */
  method CodeThenDecode(symCount: array<nat>, limit: nat, s: nat, rest: nat) returns (sym: int, codeLen: nat, size: nat)
    requires symCount.Length <= MinRedundancy.MAX_HUFF_SYMBOLS && 1 <= limit <= 15 && symCount.Length <= Pow2(limit)
    requires Sum(symCount[..]) < 0x1_0000 && s < symCount.Length && symCount[s] > 0
    ensures sym == s && codeLen == size && 1 <= size <= limit
  {
    ghost var count := symCount[..];
    assert count[s] > 0;
    hide *;
    var sizes, codes := MakeTable(symCount, limit, count);
    var bits;
    size, bits := Encode(sizes, codes, s, rest, count, limit);
    sym, codeLen := DecodeWith(sizes, bits, limit, s);
  }

  method MakeTable(symCount: array<nat>, limit: nat, ghost count: seq<nat>)
    returns (sizes: array<nat>, codes: array<nat>)
    requires symCount.Length <= MinRedundancy.MAX_HUFF_SYMBOLS && count == symCount[..]
    requires 1 <= limit <= 15 && symCount.Length <= Pow2(limit) && Sum(count) < 0x1_0000
    ensures HuffmanTable.Table(count, sizes[..], codes[..], limit) && DecodeTable.Accepts(sizes[..])
    ensures limit == 15 ==> NearOptimal.NearBest(count, sizes[..])
    ensures sizes.Length == codes.Length == symCount.Length
  {
    sizes := new nat[symCount.Length](_ => 0);
    codes := new nat[symCount.Length](_ => 0);
    hide *;
    ghost var A, l := HuffmanTable.OptimizeHuffmanTable(symCount, sizes, codes, limit, count);
    HuffmanTable.BestLengthsAre(count, A, l);
    EncoderTableIsAccepted(count, sizes[..], codes[..], limit, A, l);
    if limit == 15 { NearOptimal.TableIsNearBest(count, sizes[..], A, l); }
  }

  method Encode(sizes: array<nat>, codes: array<nat>, s: nat, rest: nat, ghost count: seq<nat>, ghost limit: nat)
    returns (size: nat, bits: nat)
    requires HuffmanTable.Table(count, sizes[..], codes[..], limit) && s < |count| && count[s] > 0
    ensures s < sizes.Length && size == sizes[s] && 1 <= size <= limit
    ensures Codable(sizes[..], limit) && Begins(sizes[..], s, bits)
  {
    CodeOf(count, sizes[..], codes[..], limit, s);
    hide *;
    size := sizes[s];
    bits := codes[s] + rest * Pow2(size);
    EncodedBegins(sizes[..], s, rest);
  }

  lemma CodeOf(count: seq<nat>, sizes: seq<nat>, codes: seq<nat>, limit: nat, s: nat)
    requires HuffmanTable.Table(count, sizes, codes, limit) && s < |count| && count[s] > 0
    ensures |sizes| == |codes| == |count| && 1 <= sizes[s] <= limit && codes[s] == RevCode(sizes, s)
            && Codable(sizes, limit)
  {
  }

  method DecodeWith(sizes: array<nat>, bits: nat, ghost limit: nat, ghost s: nat) returns (sym: int, codeLen: nat)
    requires sizes.Length <= MinRedundancy.MAX_HUFF_SYMBOLS && limit <= 15 && Codable(sizes[..], limit)
    requires DecodeTable.Accepts(sizes[..]) && s < sizes.Length && sizes[s] >= 1 && Begins(sizes[..], s, bits)
    ensures sym == s && codeLen == sizes[s]
  {
    ghost var z := sizes[..];
    assert forall i :: 0 <= i < sizes.Length ==> sizes[i] == z[i];
    assert forall i :: 0 <= i < sizes.Length ==> sizes[i] <= 15;
    hide *;
    var lookUp, tree := new int[1024], new int[576];
    var ok;
    ghost var P;
    ok, P := DecodeTable.BuildTable(sizes, lookUp, tree);
    sym, codeLen := DecodeTable.HuffDecode(lookUp, tree, bits, z, P);
  }
}
