/**
  The decoder's tables for one Huffman code: a 1024-entry table indexed by
  the next 10 input bits, and a binary tree for longer codes.
 */
module DecodeTable {
  // A tree node is a negative odd number t; its two slots are tree[-t - 1] and tree[-t]. A slot holds a node, a
  // symbol, or 0 when it is empty (symbol 0 is stored as 0 too).

  import opened Arith
  import opened Bits
  import opened CanonicalCode

  const FAST_LOOKUP_BITS := 10
  const FAST_LOOKUP_SIZE := 1024
  const MAX_HUFF_SYMBOLS := 288

  /** A tree node stands for the d input bits r that lead to it. */
  datatype Node = Node(d: nat, r: nat)

  function NodeIndex(t: int): int { (-t - 1) / 2 }

  function NodeValue(j: nat): int { -(2 * j) - 1 }

  ghost predicate IsNode(P: seq<Node>, t: int, d: nat, r: nat) {
    var j := NodeIndex(t);
    t < 0 && t == -(2 * j) - 1 && 0 <= j < |P| && P[j] == Node(d, r)
  }

  /** The code of symbol s goes on below the bits (d, r). Of symbol i, whose code is being entered, only
      the part above depth D counts. */
  ghost predicate Passes(sizes: seq<nat>, i: nat, D: nat, s: nat, d: nat, r: nat) {
    && s < |sizes| && sizes[s] > d && Low(RevCode(sizes, s), d) == r
    && (s < i || (s == i && d <= D))
  }

  /** The code of symbol s, one of the first i, is exactly the bits (d, r). */
  ghost predicate Ends(sizes: seq<nat>, i: nat, s: nat, d: nat, r: nat) {
    s < i && s < |sizes| && sizes[s] == d >= 1 && RevCode(sizes, s) == r
  }

  /** The slot for the bits (d, r) holds v. */
  ghost predicate SlotOk(sizes: seq<nat>, i: nat, D: nat, P: seq<Node>, v: int, d: nat, r: nat) {
    && (forall s: nat :: Ends(sizes, i, s, d, r) ==> v == s)
    && (forall s: nat :: Passes(sizes, i, D, s, d, r) ==> v < 0)
    && (v < 0 ==> IsNode(P, v, d, r))
    && (v > 0 ==> exists s: nat :: Ends(sizes, i, s, d, r))
  }

  /** Symbol s, one of the first i, has a code of at most 10 bits that the 10 bits p begin with. */
  ghost predicate Short(sizes: seq<nat>, i: nat, s: nat, p: nat) {
    s < i && s < |sizes| && 1 <= sizes[s] <= FAST_LOOKUP_BITS && Begins(sizes, s, p)
  }

  function Packed(size: nat, sym: nat): int { size * 512 + sym }

  /** The lookup entry for the 10 bits p holds v. */
  ghost predicate EntryOk(sizes: seq<nat>, i: nat, D: nat, P: seq<Node>, v: int, p: nat) {
    && (forall s: nat :: Short(sizes, i, s, p) ==> v == Packed(sizes[s], s))
    && (forall s: nat :: Passes(sizes, i, D, s, FAST_LOOKUP_BITS, p) ==> v < 0)
    && (v < 0 ==> IsNode(P, v, FAST_LOOKUP_BITS, p))
    && (v > 0 ==> exists s: nat :: Short(sizes, i, s, p))
  }

  ghost predicate NodeOk(sizes: seq<nat>, i: nat, D: nat, P: seq<Node>, T: seq<int>, j: nat)
    requires j < |P| && 2 * |P| <= |T|
  {
    var Node(d, r) := P[j];
    && FAST_LOOKUP_BITS <= d <= 14 && r < Pow2(d)
    && SlotOk(sizes, i, D, P, T[2 * j], d + 1, r)
    && SlotOk(sizes, i, D, P, T[2 * j + 1], d + 1, r + Pow2(d))
    && exists s: nat :: Passes(sizes, i, D, s, d, r)
  }

  /** The tables L and T, with nodes P, after the first i symbols and symbol i down to depth D. */
  ghost predicate Built(sizes: seq<nat>, i: nat, D: nat, P: seq<Node>, L: seq<int>, T: seq<int>) {
    && |L| == FAST_LOOKUP_SIZE && |T| == 2 * MAX_HUFF_SYMBOLS && |P| <= MAX_HUFF_SYMBOLS
    && (forall p :: 0 <= p < FAST_LOOKUP_SIZE ==> EntryOk(sizes, i, D, P, L[p], p))
    && (forall j :: 0 <= j < |P| ==> NodeOk(sizes, i, D, P, T, j))
    && (forall k :: 2 * |P| <= k < |T| ==> T[k] == 0)
    && (forall j, k :: 0 <= j < k < |P| ==> P[j] != P[k])
  }

  /** A finished table for all symbols. */
  ghost predicate Ready(sizes: seq<nat>, P: seq<Node>, L: seq<int>, T: seq<int>) {
    |sizes| <= MAX_HUFF_SYMBOLS && Built(sizes, |sizes|, 9, P, L, T)
  }

  // ----- decoding

  lemma LowStep(x: nat, d: nat)
    ensures Low(x, d + 1) == Low(x, d) + (Shr(x, d) % 2) * Pow2(d)
  {
    ShrShr(x, d, 1);
    assert Pow2(1) == 2;
  }

  lemma BeginsPrefix(sizes: seq<nat>, s: nat, x: nat, d: nat)
    requires s < |sizes| && Begins(sizes, s, x) && d <= sizes[s]
    ensures Low(RevCode(sizes, s), d) == Low(x, d)
  {
    LowLow(x, d, sizes[s]);
  }

  lemma Unpack(size: nat, sym: nat)
    requires sym < 512
    ensures Packed(size, sym) / 512 == size && Packed(size, sym) % 512 == sym
  {
  }

  /** What the lookup entry says about the symbol whose code comes next. */
  lemma LookedUp(sizes: seq<nat>, P: seq<Node>, L: seq<int>, T: seq<int>, s: nat, x: nat)
    requires Ready(sizes, P, L, T) && s < |sizes| && sizes[s] >= 1 && Begins(sizes, s, x)
    ensures var v := L[Low(x, 10)];
            if v >= 0 then sizes[s] <= 10 && v == Packed(sizes[s], s) else sizes[s] > 10
  {
    Pow2Values();
    var p := Low(x, 10);
    assert EntryOk(sizes, |sizes|, 9, P, L[p], p);
    if sizes[s] <= 10 {
      LowLow(x, sizes[s], 10);
      assert Short(sizes, |sizes|, s, p);
    } else {
      BeginsPrefix(sizes, s, x, 10);
      assert Passes(sizes, |sizes|, 9, s, 10, p);
    }
  }

  lemma NodeParts(sizes: seq<nat>, i: nat, D: nat, P: seq<Node>, T: seq<int>, j: nat) returns (s: nat)
    requires j < |P| && 2 * |P| <= |T| && NodeOk(sizes, i, D, P, T, j)
    ensures 10 <= P[j].d <= 14 && P[j].r < Pow2(P[j].d) && Passes(sizes, i, D, s, P[j].d, P[j].r)
    ensures SlotOk(sizes, i, D, P, T[2 * j], P[j].d + 1, P[j].r)
    ensures SlotOk(sizes, i, D, P, T[2 * j + 1], P[j].d + 1, P[j].r + Pow2(P[j].d))
  {
    hide SlotOk, Passes, Pow2;
    s :| Passes(sizes, i, D, s, P[j].d, P[j].r);
  }

  lemma NodeOf(sizes: seq<nat>, i: nat, D: nat, P: seq<Node>, T: seq<int>, j: nat, s: nat)
    requires j < |P| && 2 * |P| <= |T|
    requires 10 <= P[j].d <= 14 && P[j].r < Pow2(P[j].d) && Passes(sizes, i, D, s, P[j].d, P[j].r)
    requires SlotOk(sizes, i, D, P, T[2 * j], P[j].d + 1, P[j].r)
    requires SlotOk(sizes, i, D, P, T[2 * j + 1], P[j].d + 1, P[j].r + Pow2(P[j].d))
    ensures NodeOk(sizes, i, D, P, T, j)
  {
    hide SlotOk, Passes, Pow2;
  }

  /** The slot below node j on the side of the bits x. */
  lemma SlotBelow(sizes: seq<nat>, i: nat, D: nat, P: seq<Node>, T: seq<int>, j: nat, x: nat)
    requires j < |P| && 2 * |P| <= |T| && NodeOk(sizes, i, D, P, T, j) && P[j].r == Low(x, P[j].d)
    ensures 10 <= P[j].d <= 14 && 2 * j + Shr(x, P[j].d) % 2 < 2 * |P|
    ensures SlotOk(sizes, i, D, P, T[2 * j + Shr(x, P[j].d) % 2], P[j].d + 1, Low(x, P[j].d + 1))
  {
    hide *;
    var s := NodeParts(sizes, i, D, P, T, j);
    var d := P[j].d;
    LowStep(x, d);
    if Shr(x, d) % 2 == 0 {
      assert 0 * Pow2(d) == 0;
    } else {
      assert 1 * Pow2(d) == Pow2(d);
    }
  }

  /** What a slot below node j says about the symbol whose code comes next. */
  lemma SteppedDown(sizes: seq<nat>, P: seq<Node>, L: seq<int>, T: seq<int>, j: nat, s: nat, x: nat)
    requires Ready(sizes, P, L, T) && j < |P| && P[j].r == Low(x, P[j].d)
    requires s < |sizes| && sizes[s] > P[j].d && Begins(sizes, s, x)
    ensures var v := T[2 * j + Shr(x, P[j].d) % 2];
            if v >= 0 then v == s && sizes[s] == P[j].d + 1 else sizes[s] > P[j].d + 1
  {
    var d := P[j].d;
    assert NodeOk(sizes, |sizes|, 9, P, T, j);
    hide Built, NodeOk, Low, Shr, RevCode;
    SlotBelow(sizes, |sizes|, 9, P, T, j, x);
    BeginsPrefix(sizes, s, x, d + 1);
    if sizes[s] == d + 1 {
      assert Ends(sizes, |sizes|, s, d + 1, Low(x, d + 1));
    } else {
      assert Passes(sizes, |sizes|, 9, s, d + 1, Low(x, d + 1));
    }
  }

  lemma NextNode(sizes: seq<nat>, P: seq<Node>, L: seq<int>, T: seq<int>, j: nat, x: nat)
    requires Ready(sizes, P, L, T) && j < |P| && P[j].r == Low(x, P[j].d)
    ensures 10 <= P[j].d <= 14
    ensures var v := T[2 * j + Shr(x, P[j].d) % 2]; v < 0 ==>
            IsNode(P, v, P[j].d + 1, Low(x, P[j].d + 1)) && P[j].d < 14
  {
    assert NodeOk(sizes, |sizes|, 9, P, T, j);
    SlotBelow(sizes, |sizes|, 9, P, T, j, x);
    var v := T[2 * j + Shr(x, P[j].d) % 2];
    if v < 0 {
      assert NodeOk(sizes, |sizes|, 9, P, T, NodeIndex(v));
    }
  }

  /** TINFL_HUFF_DECODE on a bit buffer that holds enough bits: the symbol whose code comes next, and its length. */
  method HuffDecode(lookUp: array<int>, tree: array<int>, bitBuf: nat, ghost sizes: seq<nat>, ghost P: seq<Node>)
    returns (sym: int, codeLen: nat)
    requires Ready(sizes, P, lookUp[..], tree[..])
    ensures forall s :: 0 <= s < |sizes| && sizes[s] >= 1 && Begins(sizes, s, bitBuf) ==>
            sym == s && codeLen == sizes[s]
    ensures Complete(sizes, 15) ==> 0 <= sym < |sizes| && Begins(sizes, sym, bitBuf) && codeLen == sizes[sym]
    ensures codeLen <= 15
  {
    Pow2Values();
    var temp := lookUp[Low(bitBuf, FAST_LOOKUP_BITS)];
    ghost var L, T := lookUp[..], tree[..];
    assert temp == L[Low(bitBuf, 10)];
    assert EntryOk(sizes, |sizes|, 9, P, temp, Low(bitBuf, 10));
    forall s | 0 <= s < |sizes| && sizes[s] >= 1 && Begins(sizes, s, bitBuf)
      ensures if temp >= 0 then sizes[s] <= 10 && temp == Packed(sizes[s], s) else sizes[s] > 10
    {
      LookedUp(sizes, P, L, T, s, bitBuf);
    }
    if temp >= 0 {
      codeLen := temp / 512;
      sym := temp % 512;
      if temp > 0 {
        ghost var q: nat :| Short(sizes, |sizes|, q, Low(bitBuf, 10));
        Unpack(sizes[q], q);
      }
      forall s | 0 <= s < |sizes| && sizes[s] >= 1 && Begins(sizes, s, bitBuf) ensures sym == s && codeLen == sizes[s] {
        Unpack(sizes[s], s);
      }
    } else {
      codeLen := FAST_LOOKUP_BITS;
      while temp < 0
        invariant 10 <= codeLen <= 15
        invariant temp < 0 ==> IsNode(P, temp, codeLen, Low(bitBuf, codeLen)) && codeLen <= 14
        invariant forall s :: 0 <= s < |sizes| && sizes[s] >= 1 && Begins(sizes, s, bitBuf) ==>
                                if temp < 0 then sizes[s] > codeLen else temp == s && codeLen == sizes[s]
        decreases 15 - codeLen, temp < 0
      {
        ghost var j := NodeIndex(temp);
        assert NodeOk(sizes, |sizes|, 9, P, T, j);
        NextNode(sizes, P, L, T, j, bitBuf);
        ghost var v := T[2 * j + Shr(bitBuf, codeLen) % 2];
        forall s | 0 <= s < |sizes| && sizes[s] >= 1 && Begins(sizes, s, bitBuf)
          ensures if v >= 0 then v == s && sizes[s] == codeLen + 1 else sizes[s] > codeLen + 1
        {
          SteppedDown(sizes, P, L, T, j, s, bitBuf);
        }
        temp := tree[-temp - 1 + Shr(bitBuf, codeLen) % 2];
        codeLen := codeLen + 1;
        assert temp == v;
      }
      sym := temp;
    }
    if Complete(sizes, 15) {
      ghost var q := SomeCodeBegins(sizes, bitBuf, 15);
    }
  }

  // ----- entering a short code

  /** The lookup table with k at every index that begins with the code of symbol s. */
  ghost predicate Filled(sizes: seq<nat>, s: nat, L: seq<int>, L': seq<int>) {
    && s < |sizes| && |L| == |L'|
    && forall p :: 0 <= p < |L| ==> L'[p] == if Begins(sizes, s, p) then Packed(sizes[s], s) else L[p]
  }

  /** A symbol without a long code passes nowhere. */
  lemma PassesStay(sizes: seq<nat>, i: nat, n: nat, d: nat, r: nat)
    requires n == i + 1 && i < |sizes| && sizes[i] <= 10 && d >= 10
    ensures forall s: nat :: Passes(sizes, n, 9, s, d, r) <==> Passes(sizes, i, 9, s, d, r)
  {
  }

  lemma ShortStay(sizes: seq<nat>, i: nat, n: nat, p: nat)
    requires n == i + 1 && i < |sizes| && (sizes[i] == 0 || sizes[i] > 10 || !Begins(sizes, i, p))
    ensures forall s: nat :: Short(sizes, n, s, p) <==> Short(sizes, i, s, p)
  {
  }

  lemma EndsStay(sizes: seq<nat>, i: nat, n: nat, d: nat, r: nat)
    requires n == i + 1 && i < |sizes| && (sizes[i] != d || RevCode(sizes, i) != r)
    ensures forall s: nat :: Ends(sizes, n, s, d, r) <==> Ends(sizes, i, s, d, r)
  {
  }

  lemma ShortExtends(sizes: seq<nat>, i: nat, n: nat, P: seq<Node>, v: int, p: nat)
    requires Codable(sizes, 15) && n == i + 1 && i < |sizes| && 1 <= sizes[i] <= 10 && p < 1024
    requires EntryOk(sizes, i, 9, P, v, p)
    ensures EntryOk(sizes, n, 9, P, if Begins(sizes, i, p) then Packed(sizes[i], i) else v, p)
  {
    if Begins(sizes, i, p) {
      forall s: nat | Short(sizes, n, s, p) ensures s == i { CodeIsUnique(sizes, s, i, p, 15); }
      forall s: nat | Passes(sizes, n, 9, s, 10, p) ensures false {
        LowLow(RevCode(sizes, s), sizes[i], 10);
        StoredCodesArePrefixFree(sizes, i, s, 15);
      }
      assert Short(sizes, n, i, p);
    } else {
      ShortStay(sizes, i, n, p);
      PassesStay(sizes, i, n, 10, p);
    }
  }

  lemma NodesStay(sizes: seq<nat>, i: nat, n: nat, P: seq<Node>, T: seq<int>, j: nat)
    requires n == i + 1 && i < |sizes| && sizes[i] <= 10 && j < |P| && 2 * |P| <= |T| && NodeOk(sizes, i, 9, P, T, j)
    ensures NodeOk(sizes, n, 9, P, T, j)
  {
    hide *;
    var s := NodeParts(sizes, i, 9, P, T, j);
    var Node(d, r) := P[j];
    SlotStays(sizes, i, n, P, T[2 * j], d + 1, r);
    SlotStays(sizes, i, n, P, T[2 * j + 1], d + 1, r + Pow2(d));
    PassesStay(sizes, i, n, d, r);
    NodeOf(sizes, n, 9, P, T, j, s);
  }

  lemma SlotStays(sizes: seq<nat>, i: nat, n: nat, P: seq<Node>, v: int, d: nat, r: nat)
    requires n == i + 1 && i < |sizes| && sizes[i] <= 10 && d >= 11 && SlotOk(sizes, i, 9, P, v, d, r)
    ensures SlotOk(sizes, n, 9, P, v, d, r)
  {
    EndsStay(sizes, i, n, d, r);
    PassesStay(sizes, i, n, d, r);
    hide Passes, Ends, IsNode;
  }

  lemma EnterShort(sizes: seq<nat>, i: nat, n: nat, P: seq<Node>, L: seq<int>, L': seq<int>, T: seq<int>)
    requires Codable(sizes, 15) && n == i + 1 && i < |sizes| && 1 <= sizes[i] <= 10
    requires Built(sizes, i, 9, P, L, T) && Filled(sizes, i, L, L')
    ensures Built(sizes, n, 9, P, L', T)
  {
    forall p | 0 <= p < 1024 ensures EntryOk(sizes, n, 9, P, L'[p], p) {
      ShortExtends(sizes, i, n, P, L[p], p);
    }
    forall j | 0 <= j < |P| ensures NodeOk(sizes, n, 9, P, T, j) { NodesStay(sizes, i, n, P, T, j); }
  }

  lemma SkipUnused(sizes: seq<nat>, i: nat, n: nat, P: seq<Node>, L: seq<int>, T: seq<int>)
    requires n == i + 1 && i < |sizes| && sizes[i] == 0 && Built(sizes, i, 9, P, L, T)
    ensures Built(sizes, n, 9, P, L, T)
  {
    forall p | 0 <= p < 1024 ensures EntryOk(sizes, n, 9, P, L[p], p) {
      assert EntryOk(sizes, i, 9, P, L[p], p);
      ShortStay(sizes, i, n, p);
      PassesStay(sizes, i, n, 10, p);
    }
    forall j | 0 <= j < |P| ensures NodeOk(sizes, n, 9, P, T, j) { NodesStay(sizes, i, n, P, T, j); }
  }

  // ----- entering a long code: its root, its inner nodes, its leaf

  lemma MoreNodes(P: seq<Node>, Q: seq<Node>, v: int, d: nat, r: nat)
    requires IsNode(P, v, d, r) && P <= Q
    ensures IsNode(Q, v, d, r)
  {
  }

  /** Entering symbol i one level deeper concerns only the bits its own code has there. */
  lemma SlotFrame(sizes: seq<nat>, i: nat, D: nat, E: nat, P: seq<Node>, Q: seq<Node>, v: int, d: nat, r: nat)
    requires i < |sizes| && E == D + 1 && P <= Q && SlotOk(sizes, i, D, P, v, d, r)
    requires d != E || Low(RevCode(sizes, i), E) != r
    ensures SlotOk(sizes, i, E, Q, v, d, r)
  {
    assert forall s: nat :: Passes(sizes, i, E, s, d, r) <==> Passes(sizes, i, D, s, d, r);
    if v < 0 { MoreNodes(P, Q, v, d, r); }
  }

  lemma EntryFrame(sizes: seq<nat>, i: nat, D: nat, E: nat, P: seq<Node>, Q: seq<Node>, v: int, p: nat)
    requires i < |sizes| && E == D + 1 && P <= Q && EntryOk(sizes, i, D, P, v, p)
    requires 10 != E || Low(RevCode(sizes, i), E) != p
    ensures EntryOk(sizes, i, E, Q, v, p)
  {
    assert forall s: nat :: Passes(sizes, i, E, s, 10, p) <==> Passes(sizes, i, D, s, 10, p);
    if v < 0 { MoreNodes(P, Q, v, 10, p); }
  }

  /** The slot on the code's own path: either it leads on already, or it is empty. */
  lemma SlotOnPath(sizes: seq<nat>, i: nat, D: nat, P: seq<Node>, v: int, d: nat)
    requires Codable(sizes, 15) && i < |sizes| && sizes[i] > d >= 11
    requires SlotOk(sizes, i, D, P, v, d, Low(RevCode(sizes, i), d))
    ensures v <= 0
    ensures forall s: nat :: !Ends(sizes, i, s, d, Low(RevCode(sizes, i), d))
  {
    forall s: nat | Ends(sizes, i, s, d, Low(RevCode(sizes, i), d)) ensures false {
      StoredCodesArePrefixFree(sizes, s, i, 15);
    }
  }

  lemma EntryOnPath(sizes: seq<nat>, i: nat, D: nat, P: seq<Node>, v: int)
    requires Codable(sizes, 15) && i < |sizes| && sizes[i] > 10
    requires EntryOk(sizes, i, D, P, v, Low(RevCode(sizes, i), 10))
    ensures v <= 0
    ensures forall s: nat :: !Short(sizes, i, s, Low(RevCode(sizes, i), 10))
  {
    forall s: nat | Short(sizes, i, s, Low(RevCode(sizes, i), 10)) ensures false {
      LowLow(RevCode(sizes, i), sizes[s], 10);
      StoredCodesArePrefixFree(sizes, s, i, 15);
    }
  }

  /** The slot on the path once it holds a node for that path. */
  lemma SlotLeadsOn(sizes: seq<nat>, i: nat, D: nat, E: nat, P: seq<Node>, Q: seq<Node>, v: int, w: int)
    requires Codable(sizes, 15) && i < |sizes| && E == D + 1 && sizes[i] > E >= 11 && P <= Q
    requires SlotOk(sizes, i, D, P, v, E, Low(RevCode(sizes, i), E)) && IsNode(Q, w, E, Low(RevCode(sizes, i), E))
    ensures SlotOk(sizes, i, E, Q, w, E, Low(RevCode(sizes, i), E))
  {
    SlotOnPath(sizes, i, D, P, v, E);
  }

  lemma EntryLeadsOn(sizes: seq<nat>, i: nat, P: seq<Node>, Q: seq<Node>, v: int, w: int)
    requires Codable(sizes, 15) && i < |sizes| && sizes[i] > 10 && P <= Q
    requires EntryOk(sizes, i, 9, P, v, Low(RevCode(sizes, i), 10)) && IsNode(Q, w, 10, Low(RevCode(sizes, i), 10))
    ensures EntryOk(sizes, i, 10, Q, w, Low(RevCode(sizes, i), 10))
  {
    EntryOnPath(sizes, i, 9, P, v);
  }

  // ----- how many nodes there can be

  /** The bits (d, r) lead to at least two codes, or towards one longer code. */
  ghost predicate Inner(sizes: seq<nat>, n: Node) {
    && 10 <= n.d <= 14 && n.r < Pow2(n.d)
    && exists s: nat :: s < |sizes| && sizes[s] > n.d && Low(RevCode(sizes, s), n.d) == n.r
  }

  ghost predicate AtMostOneUsed(sizes: seq<nat>) {
    forall s: nat, t: nat :: s < t < |sizes| ==> sizes[s] == 0 || sizes[t] == 0
  }

  lemma {:induction false} Pigeonhole(keys: seq<nat>, n: nat)
    requires (forall j :: 0 <= j < |keys| ==> keys[j] < n) && forall j, k :: 0 <= j < k < |keys| ==> keys[j] != keys[k]
    ensures |keys| <= n
  {
    if keys == [] {
      return;
    }
    assert keys[0] < n;
    if k :| 0 <= k < |keys| && keys[k] == n - 1 {
      var rest := keys[..k] + keys[k + 1..];
      forall j | 0 <= j < |rest| ensures rest[j] < n - 1 && rest[j] == keys[if j < k then j else j + 1] {}
      Pigeonhole(rest, n - 1);
    } else {
      Pigeonhole(keys, n - 1);
    }
  }

  /** The bits of n, then a 0, then ones: the input whose code is charged with n. */
  ghost function Charge(n: Node): nat {
    n.r + Pow2(n.d + 1) * Ones(20)
  }

  lemma ChargeBits(n: Node, k: nat)
    requires n.r < Pow2(n.d) && n.d <= k <= n.d + 20
    ensures Low(Charge(n), n.d) == n.r
    ensures Shr(Charge(n), k) % 2 == if k == n.d then 0 else 1
  {
    hide *;
    var m := Ones(20);
    var d := n.d;
    ChargeIs(n);
    Unique(Charge(n), d, 2 * m, n.r);
    ShrShr(Charge(n), d, k - d);
    if k > d { OnesAreOdd(k - d, 20); } else { EvenAtZero(m); }
  }

  ghost function Ones(k: nat): nat {
    Pow2(k) - 1
  }

  lemma ChargeIs(n: Node)
    ensures Charge(n) == (2 * Ones(20)) * Pow2(n.d) + n.r
  {
    var p, m := Pow2(n.d), Ones(20);
    assert Charge(n) == n.r + (2 * p) * m by { assert Pow2(n.d + 1) == 2 * p; hide Pow2; }
    hide *;
    Reorder(p, m);
  }

  lemma Reorder(p: int, m: int)
    ensures (2 * p) * m == (2 * m) * p
  {
  }

  lemma EvenAtZero(m: nat)
    ensures Shr(2 * m, 0) % 2 == 0
  {
    Unique(2 * m, 0, 2 * m, 0);
  }

  lemma OnesAreOdd(k: nat, n: nat)
    requires 1 <= k <= n
    ensures Shr(2 * Ones(n), k) % 2 == 1
  {
    Pow2Add(n - k, k);
    assert Ones(n) == Pow2(n) - 1;
    AtLeastTwo(k);
    hide *;
    var p, q := Pow2(n - k), Pow2(k);
    DistributeRight(2 * p - 1, 1, q);
    MulAssoc(2, p, q);
    Unique(2 * Ones(n), k, 2 * p - 1, q - 2);
    OddIs(p);
  }

  lemma AtLeastTwo(k: nat)
    requires k >= 1
    ensures Pow2(k) >= 2
  {
    assert Pow2(k) == 2 * Pow2(k - 1);
  }

  lemma OddIs(p: nat)
    requires p >= 1
    ensures (2 * p - 1) % 2 == 1
  {
  }

  lemma SameFactor(a: int, b: int, p: nat)
    requires p >= 1 && a * p == b * p
    ensures a == b
  {
    if a < b { MulMono(a + 1, b, p); }
    if b < a { MulMono(b + 1, a, p); }
  }

  lemma BitOfLow(x: nat, n: nat, k: nat)
    requires k < n
    ensures Shr(Low(x, n), k) % 2 == Shr(x, k) % 2
  {
    LowStep(x, k);
    LowStep(Low(x, n), k);
    LowLow(x, k, n);
    LowLow(x, k + 1, n);
    SameFactor(Shr(Low(x, n), k) % 2, Shr(x, k) % 2, Pow2(k));
  }

  /** Symbol s is charged with node n. */
  ghost predicate Charged(sizes: seq<nat>, n: Node, s: nat) {
    s < |sizes| && sizes[s] > n.d && Begins(sizes, s, Charge(n))
  }

  /** The code charged with an inner node goes on below it. */
  lemma ChargedCode(sizes: seq<nat>, n: Node) returns (s: nat)
    requires Complete(sizes, 15) && Inner(sizes, n)
    ensures Charged(sizes, n, s)
  {
    s := SomeCodeBegins(sizes, Charge(n), 15);
    ChargeBits(n, n.d);
    if sizes[s] <= n.d {
      var q: nat :| q < |sizes| && sizes[q] > n.d && Low(RevCode(sizes, q), n.d) == n.r;
      LowLow(Charge(n), sizes[s], n.d);
      LowLow(RevCode(sizes, q), sizes[s], n.d);
      StoredCodesArePrefixFree(sizes, s, q, 15);
    }
  }

  lemma ChargedOnce(sizes: seq<nat>, m: Node, n: Node, s: nat)
    requires Codable(sizes, 15) && Inner(sizes, m) && Inner(sizes, n)
    requires m.d <= n.d && Charged(sizes, m, s) && Charged(sizes, n, s)
    ensures m == n
  {
    ChargeBits(m, n.d);
    ChargeBits(n, n.d);
    BitOfLow(Charge(m), sizes[s], n.d);
    BitOfLow(Charge(n), sizes[s], n.d);
    LowLow(Charge(m), m.d, sizes[s]);
    LowLow(Charge(n), n.d, sizes[s]);
  }

  lemma Charges(sizes: seq<nat>, P: seq<Node>, k: nat) returns (keys: seq<nat>)
    requires Complete(sizes, 15) && k <= |P| && forall j :: 0 <= j < |P| ==> Inner(sizes, P[j])
    ensures |keys| == k
    ensures forall j :: 0 <= j < k ==> Charged(sizes, P[j], keys[j])
  {
    if k == 0 {
      keys := [];
    } else {
      hide *;
      keys := Charges(sizes, P, k - 1);
      var s := ChargedCode(sizes, P[k - 1]);
      keys := keys + [s];
    }
  }

  /** A complete code for n symbols has at most n inner nodes; a single code has at most 5 below depth 10. */
  lemma NodeBound(sizes: seq<nat>, P: seq<Node>)
    requires |sizes| <= MAX_HUFF_SYMBOLS && Codable(sizes, 15) && (Complete(sizes, 15) || AtMostOneUsed(sizes))
    requires forall j :: 0 <= j < |P| ==> Inner(sizes, P[j])
    requires forall j, k :: 0 <= j < k < |P| ==> P[j] != P[k]
    ensures |P| <= MAX_HUFF_SYMBOLS
  {
    if Complete(sizes, 15) {
      var keys := Charges(sizes, P, |P|);
      forall j, k | 0 <= j < k < |keys| ensures keys[j] != keys[k] {
        if keys[j] == keys[k] {
          assert Charged(sizes, P[j], keys[j]) && Charged(sizes, P[k], keys[k]);
          if P[j].d <= P[k].d {
            ChargedOnce(sizes, P[j], P[k], keys[j]);
          } else {
            ChargedOnce(sizes, P[k], P[j], keys[j]);
          }
        }
      }
      Pigeonhole(keys, |sizes|);
    } else {
      var keys := seq(|P|, j requires 0 <= j < |P| => P[j].d);
      forall j, k | 0 <= j < k < |keys| ensures keys[j] != keys[k] {
        var s: nat :| s < |sizes| && sizes[s] > P[j].d && Low(RevCode(sizes, s), P[j].d) == P[j].r;
        var t: nat :| t < |sizes| && sizes[t] > P[k].d && Low(RevCode(sizes, t), P[k].d) == P[k].r;
        assert s == t;
      }
      Pigeonhole(keys, 15);
    }
  }

  // ----- one level of a long code

  /** No earlier code goes on below the bits (d, r), so none touches the slots there. */
  lemma FreshSlot(sizes: seq<nat>, i: nat, D: nat, d: nat, Q: seq<Node>, r: nat, b: nat)
    requires i < |sizes| && d == D + 1 && b < 2 && r < Pow2(d) && Low(RevCode(sizes, i), d) == r
    requires forall s: nat :: !Passes(sizes, i, D, s, d, r)
    ensures SlotOk(sizes, i, d, Q, 0, d + 1, r + b * Pow2(d))
  {
    var x, e := r + b * Pow2(d), d + 1;
    Unique(x, d, b, r);
    forall s: nat | Ends(sizes, i, s, e, x) ensures false {
      assert Passes(sizes, i, D, s, d, r);
    }
    forall s: nat | Passes(sizes, i, d, s, e, x) ensures false {
      LowLow(RevCode(sizes, s), d, e);
      assert Passes(sizes, i, D, s, d, r);
    }
  }

  lemma LowBound(x: nat, d: nat)
    ensures Low(x, d) < Pow2(d)
  {
  }

  lemma PassesItself(sizes: seq<nat>, i: nat, d: nat)
    requires i < |sizes| && sizes[i] > d
    ensures Passes(sizes, i, d, i, d, Low(RevCode(sizes, i), d))
  {
  }

  lemma FreshNode(sizes: seq<nat>, i: nat, D: nat, d: nat, Q: seq<Node>, T: seq<int>)
    requires i < |sizes| && d == D + 1 && 10 <= d <= 14 && sizes[i] > d
    requires Q != [] && 2 * |Q| <= |T| && Q[|Q| - 1] == Node(d, Low(RevCode(sizes, i), d))
    requires T[2 * |Q| - 2] == 0 && T[2 * |Q| - 1] == 0
    requires forall s: nat :: !Passes(sizes, i, D, s, d, Low(RevCode(sizes, i), d))
    ensures NodeOk(sizes, i, d, Q, T, |Q| - 1)
  {
    hide *;
    var r := Low(RevCode(sizes, i), d);
    LowBound(RevCode(sizes, i), d);
    FreshSlot(sizes, i, D, d, Q, r, 0);
    FreshSlot(sizes, i, D, d, Q, r, 1);
    assert 0 * Pow2(d) == 0 && 1 * Pow2(d) == Pow2(d);
    PassesItself(sizes, i, d);
    NodeOf(sizes, i, d, Q, T, |Q| - 1, i);
  }

  /** Two different prefixes have no slot in common. */
  lemma SlotsApart(x: nat, d: nat, n: Node, b: nat)
    requires n.r < Pow2(n.d) && b < 2 && n.d == d && n.r + b * Pow2(d) == Low(x, d + 1)
    ensures n == Node(d, Low(x, d)) && b == Shr(x, d) % 2
  {
    LowStep(x, d);
    Unique(Low(x, d + 1), d, b, n.r);
    Unique(Low(x, d + 1), d, Shr(x, d) % 2, Low(x, d));
  }

  /** A node whose slots did not change, one level deeper. */
  lemma NodeFrame(sizes: seq<nat>, i: nat, D: nat, E: nat, P: seq<Node>, Q: seq<Node>, T: seq<int>, T': seq<int>,
                  j: nat)
    requires i < |sizes| && E == D + 1 && P <= Q && j < |P| && 2 * |Q| <= |T| == |T'| && NodeOk(sizes, i, D, P, T, j)
    requires P[j] != Node(D, Low(RevCode(sizes, i), D)) && T'[2 * j] == T[2 * j] && T'[2 * j + 1] == T[2 * j + 1]
    ensures NodeOk(sizes, i, E, Q, T', j)
  {
    hide *;
    var s := NodeParts(sizes, i, D, P, T, j);
    var Node(d, r) := P[j];
    SlotsElsewhere(RevCode(sizes, i), D, P[j]);
    SlotFrame(sizes, i, D, E, P, Q, T[2 * j], d + 1, r);
    SlotFrame(sizes, i, D, E, P, Q, T[2 * j + 1], d + 1, r + Pow2(d));
    PassesOn(sizes, i, D, E, s, d, r);
    NodeOf(sizes, i, E, Q, T', j, s);
  }

  lemma PassesOn(sizes: seq<nat>, i: nat, D: nat, E: nat, s: nat, d: nat, r: nat)
    requires Passes(sizes, i, D, s, d, r) && D <= E
    ensures Passes(sizes, i, E, s, d, r)
  {
  }

  /** A node off the path of x has no slot on it. */
  lemma SlotsElsewhere(x: nat, D: nat, n: Node)
    requires n.r < Pow2(n.d) && n != Node(D, Low(x, D))
    ensures n.d == D ==> n.r != Low(x, D + 1) && n.r + Pow2(D) != Low(x, D + 1)
  {
    hide *;
    if n.d == D && n.r == Low(x, D + 1) { assert 0 * Pow2(D) == 0; SlotsApart(x, D, n, 0); }
    if n.d == D && n.r + Pow2(D) == Low(x, D + 1) { assert 1 * Pow2(D) == Pow2(D); SlotsApart(x, D, n, 1); }
  }

  /** The node on the path, when its slot towards the code leads on. */
  lemma NodeLeadsOn(sizes: seq<nat>, i: nat, D: nat, E: nat, P: seq<Node>, Q: seq<Node>, T: seq<int>, T': seq<int>,
                    j: nat)
    requires Codable(sizes, 15) && i < |sizes| && E == D + 1 && sizes[i] > E >= 11 && P <= Q
    requires j < |P| && 2 * |Q| <= |T| == |T'| && NodeOk(sizes, i, D, P, T, j)
    requires P[j] == Node(D, Low(RevCode(sizes, i), D))
    requires var k := 2 * j + Shr(RevCode(sizes, i), D) % 2;
             T' == T[k := T'[k]] && IsNode(Q, T'[k], E, Low(RevCode(sizes, i), E))
    ensures NodeOk(sizes, i, E, Q, T', j)
  {
    hide *;
    var x := RevCode(sizes, i);
    var b, r := Shr(x, D) % 2, P[j].r;
    var s := NodeParts(sizes, i, D, P, T, j);
    SlotBelow(sizes, i, D, P, T, j, x);
    SlotLeadsOn(sizes, i, D, E, P, Q, T[2 * j + b], T'[2 * j + b]);
    PassesOn(sizes, i, D, E, s, D, r);
    LowIs(x, D, b, r);
    if b == 0 {
      SlotFrame(sizes, i, D, E, P, Q, T[2 * j + 1], E, r + Pow2(D));
    } else {
      SlotFrame(sizes, i, D, E, P, Q, T[2 * j], E, r);
    }
    NodeOf(sizes, i, E, Q, T', j, s);
  }

  lemma LowIs(x: nat, d: nat, b: nat, r: nat)
    requires b == Shr(x, d) % 2 && r == Low(x, d)
    ensures if b == 0 then Low(x, d + 1) == r && r + Pow2(d) != r else Low(x, d + 1) == r + Pow2(d) && r + Pow2(d) != r
  {
    LowStep(x, d);
    Positive(d);
    assert 0 * Pow2(d) == 0 && 1 * Pow2(d) == Pow2(d);
  }

  lemma Positive(d: nat)
    ensures Pow2(d) >= 1
  {
  }

  /** What a code must be for its tables to fit: not over-subscribed, and complete or a single code. */
  ghost predicate Fits(sizes: seq<nat>) {
    |sizes| <= MAX_HUFF_SYMBOLS && Codable(sizes, 15) && (Complete(sizes, 15) || AtMostOneUsed(sizes))
  }

  lemma NodesAreInner(sizes: seq<nat>, i: nat, D: nat, P: seq<Node>, L: seq<int>, T: seq<int>)
    requires Built(sizes, i, D, P, L, T)
    ensures forall j :: 0 <= j < |P| ==> Inner(sizes, P[j])
  {
    forall j | 0 <= j < |P| ensures Inner(sizes, P[j]) {
      assert NodeOk(sizes, i, D, P, T, j);
      var s: nat :| Passes(sizes, i, D, s, P[j].d, P[j].r);
    }
  }

  /** If nothing passes at a node's place, the node is new and there is room for it. */
  lemma RoomForNode(sizes: seq<nat>, i: nat, D: nat, P: seq<Node>, L: seq<int>, T: seq<int>, n: Node)
    requires Fits(sizes) && Built(sizes, i, D, P, L, T) && i < |sizes| && 10 <= n.d <= 14 && n.d < sizes[i]
    requires n.r == Low(RevCode(sizes, i), n.d) && forall s: nat :: !Passes(sizes, i, D, s, n.d, n.r)
    ensures |P| < MAX_HUFF_SYMBOLS && forall j :: 0 <= j < |P| ==> P[j] != n
  {
    NodesAreInner(sizes, i, D, P, L, T);
    forall j | 0 <= j < |P| ensures P[j] != n {
      assert NodeOk(sizes, i, D, P, T, j);
      var s: nat :| Passes(sizes, i, D, s, P[j].d, P[j].r);
    }
    NodeBound(sizes, P + [n]);
  }

  lemma EnterRoot(sizes: seq<nat>, i: nat, P: seq<Node>, L: seq<int>, T: seq<int>)
    requires Fits(sizes) && Built(sizes, i, 9, P, L, T) && i < |sizes| && sizes[i] > 10
    ensures var r := Low(RevCode(sizes, i), 10);
            && r < |L| && L[r] <= 0
            && (L[r] == 0 ==> |P| < MAX_HUFF_SYMBOLS
                              && Built(sizes, i, 10, P + [Node(10, r)], L[r := NodeValue(|P|)], T))
            && (L[r] < 0 ==> Built(sizes, i, 10, P, L, T) && IsNode(P, L[r], 10, r))
  {
    Pow2Values();
    var r := Low(RevCode(sizes, i), 10);
    assert EntryOk(sizes, i, 9, P, L[r], r);
    EntryOnPath(sizes, i, 9, P, L[r]);
    var n := Node(10, r);
    var Q, w := P, L[r];
    if L[r] == 0 {
      RoomForNode(sizes, i, 9, P, L, T, n);
      Q, w := P + [n], NodeValue(|P|);
    }
    var M := L[r := w];
    forall p | 0 <= p < 1024 ensures EntryOk(sizes, i, 10, Q, M[p], p) {
      assert EntryOk(sizes, i, 9, P, L[p], p);
      if p == r { EntryLeadsOn(sizes, i, P, Q, L[r], w); } else { EntryFrame(sizes, i, 9, 10, P, Q, L[p], p); }
    }
    forall j | 0 <= j < |Q| ensures NodeOk(sizes, i, 10, Q, T, j) {
      if j < |P| {
        assert NodeOk(sizes, i, 9, P, T, j);
        NodeFrame(sizes, i, 9, 10, P, Q, T, T, j);
      } else {
        FreshNode(sizes, i, 9, 10, Q, T);
      }
    }
    assert L[r] < 0 ==> M == L;
  }

  lemma FitsIsCodable(sizes: seq<nat>)
    requires Fits(sizes)
    ensures Codable(sizes, 15)
  {
  }

  lemma LeadsTo(sizes: seq<nat>, i: nat, D: nat, P: seq<Node>, v: int, d: nat, r: nat)
    requires SlotOk(sizes, i, D, P, v, d, r)
    ensures v == 0 ==> forall s: nat :: !Passes(sizes, i, D, s, d, r)
    ensures v < 0 ==> IsNode(P, v, d, r)
  {
  }

  /** The tables one level deeper: Q adds the node for the code's own path if it was missing. */
  lemma InnerBuilt(sizes: seq<nat>, i: nat, D: nat, E: nat, P: seq<Node>, Q: seq<Node>, L: seq<int>, T: seq<int>,
                   U: seq<int>, j: nat)
    requires Codable(sizes, 15) && Built(sizes, i, D, P, L, T) && i < |sizes| && 10 <= D && E == D + 1 && sizes[i] > E
    requires j < |P| && P[j] == Node(D, Low(RevCode(sizes, i), D)) && E <= 14
    requires var k := 2 * j + Shr(RevCode(sizes, i), D) % 2; var r := Low(RevCode(sizes, i), E);
             && |U| == |T| && k < 2 * |P| && U == T[k := U[k]] && IsNode(Q, U[k], E, r)
             && (Q == P || (Q == P + [Node(E, r)] && |P| < MAX_HUFF_SYMBOLS
                            && (forall h :: 0 <= h < |P| ==> P[h] != Node(E, r))
                            && forall s: nat :: !Passes(sizes, i, D, s, E, r)))
    ensures Built(sizes, i, E, Q, L, U)
  {
    hide SlotOk, EntryOk, RevCode, Low, Shr, Codable, IsNode;
    forall p | 0 <= p < 1024 ensures EntryOk(sizes, i, E, Q, L[p], p) {
      EntryFrame(sizes, i, D, E, P, Q, L[p], p);
    }
    forall h | 0 <= h < |Q| ensures NodeOk(sizes, i, E, Q, U, h) {
      if h == j {
        NodeLeadsOn(sizes, i, D, E, P, Q, T, U, j);
      } else if h < |P| {
        assert NodeOk(sizes, i, D, P, T, h) && P[h] != P[j];
        NodeFrame(sizes, i, D, E, P, Q, T, U, h);
      } else {
        FreshNode(sizes, i, D, E, Q, U);
      }
    }
  }

  /** The slot of the last node on the path towards the code's next bit. */
  lemma PathSlot(sizes: seq<nat>, i: nat, D: nat, E: nat, P: seq<Node>, L: seq<int>, T: seq<int>, j: nat)
    requires Fits(sizes) && Built(sizes, i, D, P, L, T) && i < |sizes| && 10 <= D && E == D + 1 && sizes[i] > E
    requires j < |P| && P[j] == Node(D, Low(RevCode(sizes, i), D))
    ensures var k, r := 2 * j + Shr(RevCode(sizes, i), D) % 2, Low(RevCode(sizes, i), E);
            && k < 2 * |P| && T[k] <= 0 && (T[k] < 0 ==> IsNode(P, T[k], E, r))
            && (T[k] == 0 ==> forall s: nat :: !Passes(sizes, i, D, s, E, r))
  {
    hide *;
    var x := RevCode(sizes, i);
    FitsIsCodable(sizes);
    TreeSize(sizes, i, D, P, L, T);
    BuiltNode(sizes, i, D, P, L, T, j);
    SlotBelow(sizes, i, D, P, T, j, x);
    var k := 2 * j + Shr(x, D) % 2;
    SlotOnPath(sizes, i, D, P, T[k], E);
    LeadsTo(sizes, i, D, P, T[k], E, Low(x, E));
  }

  lemma BuiltNode(sizes: seq<nat>, i: nat, D: nat, P: seq<Node>, L: seq<int>, T: seq<int>, j: nat)
    requires Built(sizes, i, D, P, L, T) && j < |P|
    ensures 2 * |P| <= |T| && NodeOk(sizes, i, D, P, T, j)
  {
    hide NodeOk, EntryOk;
  }

  lemma InnerMissing(sizes: seq<nat>, i: nat, D: nat, E: nat, P: seq<Node>, L: seq<int>, T: seq<int>, j: nat, k: nat,
                     r: nat)
    requires Fits(sizes) && Built(sizes, i, D, P, L, T) && i < |sizes| && 10 <= D && E == D + 1 && sizes[i] > E
    requires j < |P| && P[j] == Node(D, Low(RevCode(sizes, i), D)) && r == Low(RevCode(sizes, i), E)
    requires k == 2 * j + Shr(RevCode(sizes, i), D) % 2 && k < 2 * |P| && forall s: nat :: !Passes(sizes, i, D, s, E, r)
    ensures |P| < MAX_HUFF_SYMBOLS && k < |T| && Built(sizes, i, E, P + [Node(E, r)], L, T[k := NodeValue(|P|)])
  {
    hide *;
    FitsIsCodable(sizes);
    TreeSize(sizes, i, D, P, L, T);
    AtMost15(sizes, i);
    RoomForNode(sizes, i, D, P, L, T, Node(E, r));
    LastNode(P, E, r);
    InnerBuilt(sizes, i, D, E, P, P + [Node(E, r)], L, T, T[k := NodeValue(|P|)], j);
  }

  lemma LastNode(P: seq<Node>, d: nat, r: nat)
    ensures IsNode(P + [Node(d, r)], NodeValue(|P|), d, r)
  {
  }

  lemma AtMost15(sizes: seq<nat>, i: nat)
    requires Fits(sizes) && i < |sizes|
    ensures sizes[i] <= 15
  {
  }

  lemma EnterInner(sizes: seq<nat>, i: nat, D: nat, E: nat, P: seq<Node>, L: seq<int>, T: seq<int>, j: nat)
    requires Fits(sizes) && Built(sizes, i, D, P, L, T) && i < |sizes| && 10 <= D && E == D + 1 && sizes[i] > E
    requires j < |P| && P[j] == Node(D, Low(RevCode(sizes, i), D))
    ensures var k, r := 2 * j + Shr(RevCode(sizes, i), D) % 2, Low(RevCode(sizes, i), E);
            && k < 2 * |P| && T[k] <= 0
            && (T[k] == 0 ==> |P| < MAX_HUFF_SYMBOLS
                              && Built(sizes, i, E, P + [Node(E, r)], L, T[k := NodeValue(|P|)]))
            && (T[k] < 0 ==> Built(sizes, i, E, P, L, T) && IsNode(P, T[k], E, r))
  {
    hide *;
    FitsIsCodable(sizes);
    AtMost15(sizes, i);
    TreeSize(sizes, i, D, P, L, T);
    PathSlot(sizes, i, D, E, P, L, T, j);
    var k, r := 2 * j + Shr(RevCode(sizes, i), D) % 2, Low(RevCode(sizes, i), E);
    if T[k] == 0 {
      InnerMissing(sizes, i, D, E, P, L, T, j, k, r);
    } else {
      InnerBuilt(sizes, i, D, E, P, P, L, T, T, j);
    }
  }

  /** A slot off the code's own path when the whole code has been entered. */
  lemma SlotDone(sizes: seq<nat>, i: nat, n: nat, D: nat, P: seq<Node>, v: int, d: nat, r: nat)
    requires n == i + 1 && i < |sizes| && sizes[i] == D + 1 > 10 && d >= 11 && SlotOk(sizes, i, D, P, v, d, r)
    requires d != D + 1 || RevCode(sizes, i) != r
    ensures SlotOk(sizes, n, 9, P, v, d, r)
  {
    assert forall s: nat :: Passes(sizes, n, 9, s, d, r) <==> Passes(sizes, i, D, s, d, r);
    EndsStay(sizes, i, n, d, r);
  }

  lemma NodeDone(sizes: seq<nat>, i: nat, n: nat, D: nat, P: seq<Node>, T: seq<int>, T': seq<int>, j: nat)
    requires n == i + 1 && i < |sizes| && sizes[i] == D + 1 > 10 && j < |P| && 2 * |P| <= |T| == |T'|
             && NodeOk(sizes, i, D, P, T, j)
    requires P[j] != Node(D, Low(RevCode(sizes, i), D)) && T'[2 * j] == T[2 * j] && T'[2 * j + 1] == T[2 * j + 1]
    ensures NodeOk(sizes, n, 9, P, T', j)
  {
    hide *;
    var x := RevCode(sizes, i);
    var s := NodeParts(sizes, i, D, P, T, j);
    var Node(d, r) := P[j];
    WholeCode(sizes, i, D + 1);
    SlotsElsewhere(x, D, P[j]);
    SlotDone(sizes, i, n, D, P, T[2 * j], d + 1, r);
    SlotDone(sizes, i, n, D, P, T[2 * j + 1], d + 1, r + Pow2(d));
    PassesEntered(sizes, i, n, D, s, d, r);
    NodeOf(sizes, n, 9, P, T', j, s);
  }

  lemma WholeCode(sizes: seq<nat>, i: nat, d: nat)
    requires i < |sizes| && sizes[i] == d
    ensures Low(RevCode(sizes, i), d) == RevCode(sizes, i) < Pow2(d)
  {
    Small(RevCode(sizes, i), d);
  }

  lemma PassesEntered(sizes: seq<nat>, i: nat, n: nat, D: nat, s: nat, d: nat, r: nat)
    requires n == i + 1 && Passes(sizes, i, D, s, d, r)
    ensures Passes(sizes, n, 9, s, d, r)
  {
  }

  lemma LeafSlot(sizes: seq<nat>, i: nat, n: nat, P: seq<Node>, E: nat, r: nat)
    requires Codable(sizes, 15) && n == i + 1 && i < |sizes| && sizes[i] == E > 10 && r == RevCode(sizes, i)
    ensures SlotOk(sizes, n, 9, P, i, E, r)
  {
    forall s: nat | Ends(sizes, n, s, E, r) ensures s == i {
      if s != i {
        Small(r, E);
        StoredCodesArePrefixFree(sizes, s, i, 15);
      }
    }
    forall s: nat | Passes(sizes, n, 9, s, E, r) ensures false {
      StoredCodesArePrefixFree(sizes, i, s, 15);
    }
    assert Ends(sizes, n, i, E, r);
  }

  lemma LeafNode(sizes: seq<nat>, i: nat, n: nat, D: nat, P: seq<Node>, T: seq<int>, j: nat)
    requires Codable(sizes, 15) && n == i + 1 && i < |sizes| && sizes[i] == D + 1 > 10
    requires j < |P| && 2 * |P| <= |T| && NodeOk(sizes, i, D, P, T, j) && P[j] == Node(D, Low(RevCode(sizes, i), D))
    ensures NodeOk(sizes, n, 9, P, T[2 * j + Shr(RevCode(sizes, i), D) % 2 := i], j)
  {
    hide *;
    var x := RevCode(sizes, i);
    var b, r := Shr(x, D) % 2, P[j].r;
    var s := NodeParts(sizes, i, D, P, T, j);
    WholeCode(sizes, i, D + 1);
    LowIs(x, D, b, r);
    LeafSlot(sizes, i, n, P, D + 1, x);
    if b == 0 {
      SlotDone(sizes, i, n, D, P, T[2 * j + 1], D + 1, r + Pow2(D));
    } else {
      SlotDone(sizes, i, n, D, P, T[2 * j], D + 1, r);
    }
    PassesEntered(sizes, i, n, D, s, D, r);
    NodeOf(sizes, n, 9, P, T[2 * j + b := i], j, s);
  }

  lemma EnterLeaf(sizes: seq<nat>, i: nat, n: nat, D: nat, P: seq<Node>, L: seq<int>, T: seq<int>, j: nat)
    requires Fits(sizes) && Built(sizes, i, D, P, L, T) && n == i + 1 && i < |sizes| && 10 <= D && sizes[i] == D + 1
    requires j < |P| && P[j] == Node(D, Low(RevCode(sizes, i), D))
    ensures var k := 2 * j + Shr(RevCode(sizes, i), D) % 2;
            k < 2 * |P| && Built(sizes, n, 9, P, L, T[k := i])
  {
    var k := 2 * j + Shr(RevCode(sizes, i), D) % 2;
    var U := T[k := i];
    forall p | 0 <= p < 1024 ensures EntryOk(sizes, n, 9, P, L[p], p) {
      assert EntryOk(sizes, i, D, P, L[p], p);
      ShortStay(sizes, i, n, p);
      assert forall s: nat :: Passes(sizes, n, 9, s, 10, p) <==> Passes(sizes, i, D, s, 10, p);
    }
    forall h | 0 <= h < |P| ensures NodeOk(sizes, n, 9, P, U, h) {
      assert NodeOk(sizes, i, D, P, T, h);
      if h == j { LeafNode(sizes, i, n, D, P, T, j); } else { NodeDone(sizes, i, n, D, P, T, U, h); }
    }
  }

  // ----- building the tables

  lemma BeginsAt(sizes: seq<nat>, s: nat, p: nat, c: nat, r: nat)
    requires s < |sizes| && r == RevCode(sizes, s) && p == r + c * Pow2(sizes[s])
    ensures Begins(sizes, s, p)
  {
    Unique(p, sizes[s], c, r);
  }

  lemma BeginsOnlyAt(sizes: seq<nat>, s: nat, p: nat, q: nat, c: nat)
    requires s < |sizes| && Begins(sizes, s, p) && q == RevCode(sizes, s) + c * Pow2(sizes[s])
    ensures p < q + Pow2(sizes[s]) ==> p <= q
  {
    var P := Pow2(sizes[s]);
    Split(p, sizes[s]);
    var e := Shr(p, sizes[s]);
    if p > q {
      if e <= c { MulMono(e, c, P); }
      MulMono(c + 1, e, P);
      DistributeRight(c, 1, P);
    }
  }

  /** Stores the entry of a short code at every index that begins with the code. */
  method FillShort(lookUp: array<int>, revCode: nat, codeSize: nat, sym: nat, ghost sizes: seq<nat>)
    requires lookUp.Length == FAST_LOOKUP_SIZE && sym < |sizes| && codeSize == sizes[sym]
             && revCode == RevCode(sizes, sym)
    modifies lookUp
    ensures Filled(sizes, sym, old(lookUp[..]), lookUp[..])
  {
    var k := Packed(codeSize, sym);
    var r := revCode;
    ghost var c := 0;
    forall p | 0 <= p < r ensures !Begins(sizes, sym, p) {
      LowAtMost(p, codeSize);
    }
    while r < FAST_LOOKUP_SIZE
      invariant r == revCode + c * Pow2(codeSize)
      invariant forall p :: 0 <= p < lookUp.Length ==>
                              lookUp[p] == if p < r && Begins(sizes, sym, p) then k else old(lookUp[p])
      decreases FAST_LOOKUP_SIZE - r
    {
      BeginsAt(sizes, sym, r, c, revCode);
      forall p | r < p < r + Pow2(codeSize) ensures !Begins(sizes, sym, p) {
        if Begins(sizes, sym, p) { BeginsOnlyAt(sizes, sym, p, r, c); }
      }
      lookUp[r] := k;
      DistributeRight(c, 1, Pow2(codeSize));
      r := r + Pow2(codeSize);
      c := c + 1;
    }
  }

  /** Walks down the code of a symbol, making the nodes that are missing, and stores the symbol at its end. */
  method EnterLong(lookUp: array<int>, tree: array<int>, treeNext: int, sym: nat, codeSize: nat, revCode: nat,
                   ghost sizes: seq<nat>, ghost P: seq<Node>)
    returns (treeNext': int, ghost P': seq<Node>)
    requires lookUp != tree && Fits(sizes) && sym < |sizes| && codeSize == sizes[sym] > 10
             && revCode == RevCode(sizes, sym)
    requires Built(sizes, sym, 9, P, lookUp[..], tree[..]) && treeNext == NodeValue(|P|)
    modifies lookUp, tree
    ensures Built(sizes, sym + 1, 9, P', lookUp[..], tree[..]) && treeNext' == NodeValue(|P'|)
  {
    assert FAST_LOOKUP_BITS == 10;
    hide *;
    ghost var D := 10;
    var treeCur;
    treeCur, treeNext', P' := FindRoot(lookUp, tree, treeNext, sym, revCode, sizes, P);
    var rc := Shr(revCode, FAST_LOOKUP_BITS - 1);
    var j := codeSize;
    while j > FAST_LOOKUP_BITS + 1
      invariant 10 <= D < codeSize && j == codeSize - D + 10 && rc == Shr(revCode, D - 1)
      invariant Built(sizes, sym, D, P', lookUp[..], tree[..]) && treeNext' == NodeValue(|P'|)
      invariant IsNode(P', treeCur, D, Low(revCode, D))
      decreases j
    {
      treeCur, treeNext', P', rc := DescendOne(lookUp, tree, treeCur, treeNext', rc, sym, revCode, sizes, P', D);
      D := D + 1;
      j := j - 1;
    }
    rc := rc / 2;
    HalfOf(revCode, D);
    StoreLeaf(tree, treeCur - rc % 2, sym, rc, sizes, P', D, lookUp[..]);
  }

  lemma HalfOf(x: nat, d: nat)
    requires d >= 1
    ensures Shr(x, d - 1) / 2 == Shr(x, d)
  {
    ShrShr(x, d - 1, 1);
    assert Pow2(1) == 2;
  }

  /** The node for the first ten bits of the code. */
  method FindRoot(lookUp: array<int>, tree: array<int>, treeNext: int, sym: nat, revCode: nat, ghost sizes: seq<nat>,
                  ghost P: seq<Node>)
    returns (treeCur: int, treeNext': int, ghost P': seq<Node>)
    requires lookUp != tree && Fits(sizes) && sym < |sizes| && sizes[sym] > 10 && revCode == RevCode(sizes, sym)
    requires Built(sizes, sym, 9, P, lookUp[..], tree[..]) && treeNext == NodeValue(|P|)
    modifies lookUp
    ensures Built(sizes, sym, 10, P', lookUp[..], tree[..]) && treeNext' == NodeValue(|P'|)
    ensures IsNode(P', treeCur, 10, Low(revCode, 10))
  {
    ghost var L := lookUp[..];
    TreeSize(sizes, sym, 9, P, L, tree[..]);
    EnterRoot(sizes, sym, P, L, tree[..]);
    LastNode(P, 10, Low(revCode, 10));
    hide *;
    treeNext', P' := treeNext, P;
    treeCur := lookUp[Low(revCode, FAST_LOOKUP_BITS)];
    if treeCur == 0 {
      lookUp[Low(revCode, FAST_LOOKUP_BITS)] := treeNext';
      assert lookUp[..] == L[Low(revCode, 10) := treeNext'];
      treeCur := treeNext';
      P' := P + [Node(10, Low(revCode, 10))];
      NextValue(|P|);
      treeNext' := treeNext' - 2;
    } else {
      assert lookUp[..] == L;
    }
  }

  lemma NextValue(j: nat)
    ensures NodeValue(j + 1) == NodeValue(j) - 2
  {
  }

  /** The symbol goes into the slot at the end of its code. */
  method StoreLeaf(tree: array<int>, treeCur: int, sym: nat, ghost rc: nat, ghost sizes: seq<nat>, ghost P: seq<Node>,
                   ghost D: nat, ghost L: seq<int>)
    requires Fits(sizes) && Built(sizes, sym, D, P, L, tree[..]) && sym < |sizes| && 10 <= D && sizes[sym] == D + 1
    requires rc == Shr(RevCode(sizes, sym), D) && IsNode(P, treeCur + rc % 2, D, Low(RevCode(sizes, sym), D))
    modifies tree
    ensures Built(sizes, sym + 1, 9, P, L, tree[..])
  {
    ghost var T := tree[..];
    ghost var j := NodeIndex(treeCur + rc % 2);
    SlotOf(P, treeCur, rc % 2, D, Low(RevCode(sizes, sym), D));
    hide *;
    EnterLeaf(sizes, sym, sym + 1, D, P, L, T, j);
    TreeSize(sizes, sym, D, P, L, T);
    tree[-treeCur - 1] := sym;
    assert tree[..] == T[2 * j + rc % 2 := sym];
  }

  lemma SlotOf(P: seq<Node>, t: int, b: nat, d: nat, r: nat)
    requires b < 2 && IsNode(P, t + b, d, r)
    ensures var j := NodeIndex(t + b); 0 <= j < |P| && P[j] == Node(d, r) && -t - 1 == 2 * j + b
  {
  }

  lemma TreeSize(sizes: seq<nat>, i: nat, D: nat, P: seq<Node>, L: seq<int>, T: seq<int>)
    requires Built(sizes, i, D, P, L, T)
    ensures |T| == 2 * MAX_HUFF_SYMBOLS && |L| == FAST_LOOKUP_SIZE && |P| <= MAX_HUFF_SYMBOLS
  {
  }

  method DescendOne(lookUp: array<int>, tree: array<int>, treeCur: int, treeNext: int, rc: nat, sym: nat, revCode: nat,
                    ghost sizes: seq<nat>, ghost P: seq<Node>, ghost D: nat)
    returns (treeCur': int, treeNext': int, ghost P': seq<Node>, rc': nat)
    requires lookUp != tree && Fits(sizes) && sym < |sizes| && sizes[sym] > D + 1 && revCode == RevCode(sizes, sym)
             && D >= 10
    requires Built(sizes, sym, D, P, lookUp[..], tree[..]) && treeNext == NodeValue(|P|)
    requires IsNode(P, treeCur, D, Low(revCode, D)) && rc == Shr(revCode, D - 1)
    modifies tree
    ensures Built(sizes, sym, D + 1, P', lookUp[..], tree[..]) && treeNext' == NodeValue(|P'|)
    ensures IsNode(P', treeCur', D + 1, Low(revCode, D + 1)) && rc' == Shr(revCode, D)
  {
    treeNext', P' := treeNext, P;
    hide Built, Fits, EntryOk, NodeOk, Complete, Codable, RevCode, Low;
    ghost var j := NodeIndex(treeCur);
    ghost var T := tree[..];
    TreeSize(sizes, sym, D, P, lookUp[..], T);
    EnterInner(sizes, sym, D, D + 1, P, lookUp[..], T, j);
    ShrShr(revCode, D - 1, 1);
    assert Pow2(1) == 2;
    rc' := rc / 2;
    assert rc' == Shr(revCode, D);
    treeCur' := treeCur - rc' % 2;
    assert -treeCur' - 1 == 2 * j + rc' % 2;
    assert tree[-treeCur' - 1] == T[2 * j + rc' % 2];
    if tree[-treeCur' - 1] == 0 {
      tree[-treeCur' - 1] := treeNext';
      assert tree[..] == T[2 * j + rc' % 2 := NodeValue(|P|)];
      treeCur' := treeNext';
      P' := P + [Node(D + 1, Low(revCode, D + 1))];
      treeNext' := treeNext' - 2;
    } else {
      treeCur' := tree[-treeCur' - 1];
    }
  }

  // ----- the whole build

  /** The number of used symbols, size by size. */
  function UsedSyms(sizes: seq<nat>, k: nat): nat {
    if k == 0 then 0 else UsedSyms(sizes, k - 1) + CountOf(sizes, k, |sizes|)
  }

  /** When the decoder accepts a vector of code sizes. */
  predicate Accepts(sizes: seq<nat>) {
    Units(sizes, 15, 15) == Pow2(15) || UsedSyms(sizes, 15) <= 1
  }

  lemma {:induction false} UsedCounts(sizes: seq<nat>, l: nat, k: nat)
    requires 1 <= l <= k
    ensures CountOf(sizes, l, |sizes|) <= UsedSyms(sizes, k)
    decreases k
  {
    if l < k { UsedCounts(sizes, l, k - 1); }
  }

  lemma {:induction false} TwoSizesUsed(sizes: seq<nat>, a: nat, b: nat, k: nat)
    requires 1 <= a < b <= k
    ensures CountOf(sizes, a, |sizes|) + CountOf(sizes, b, |sizes|) <= UsedSyms(sizes, k)
    decreases k
  {
    if b < k { TwoSizesUsed(sizes, a, b, k - 1); } else { UsedCounts(sizes, a, k - 1); }
  }

  lemma FewUsed(sizes: seq<nat>)
    requires UsedSyms(sizes, 15) <= 1 && forall i :: 0 <= i < |sizes| ==> sizes[i] <= 15
    ensures AtMostOneUsed(sizes)
  {
    forall s: nat, t: nat | s < t < |sizes| ensures sizes[s] == 0 || sizes[t] == 0 {
      if sizes[s] != 0 && sizes[t] != 0 {
        var a, b := sizes[s], sizes[t];
        CountMono(sizes, a, 0, s);
        CountMono(sizes, a, s, |sizes|);
        CountMono(sizes, b, t, |sizes|);
        if a == b {
          CountMono(sizes, a, s, t);
          UsedCounts(sizes, a, 15);
        } else if a < b {
          TwoSizesUsed(sizes, a, b, 15);
        } else {
          TwoSizesUsed(sizes, b, a, 15);
        }
      }
    }
  }

  lemma UnitsNext(sizes: seq<nat>, k: nat, m: nat)
    requires 1 <= k <= m
    ensures Units(sizes, k, m) == Units(sizes, k - 1, m) + CountOf(sizes, k, |sizes|) * Pow2(m - k)
  {
  }

  lemma MoreUnits(u: nat, a: nat, c: nat, p: nat, q: nat)
    requires u <= a * q && p <= q
    ensures u + c * p <= (a + c) * q
  {
    MulMono(p, q, c);
    DistributeRight(a, c, q);
  }

  lemma {:induction false} FewUnits(sizes: seq<nat>, k: nat, m: nat)
    requires k <= m
    ensures Units(sizes, k, m) <= UsedSyms(sizes, k) * Pow2(m)
  {
    if k > 0 {
      hide *;
      FewUnits(sizes, k - 1, m);
      Pow2Mono(m - k, m);
      UnitsNext(sizes, k, m);
      UsedStep(sizes, k);
      MoreUnits(Units(sizes, k - 1, m), UsedSyms(sizes, k - 1), CountOf(sizes, k, |sizes|), Pow2(m - k), Pow2(m));
    }
  }

  lemma AcceptedFits(sizes: seq<nat>)
    requires |sizes| <= MAX_HUFF_SYMBOLS && Accepts(sizes) && forall i :: 0 <= i < |sizes| ==> sizes[i] <= 15
    ensures Fits(sizes)
  {
    if Units(sizes, 15, 15) != Pow2(15) {
      FewUsed(sizes);
      FewUnits(sizes, 15, 15);
      MulMono(UsedSyms(sizes, 15), 1, Pow2(15));
    }
  }

  method CountSizes(codeSize: array<nat>) returns (totalSyms: array<nat>)
    requires forall i :: 0 <= i < codeSize.Length ==> codeSize[i] <= 15
    ensures fresh(totalSyms) && totalSyms.Length == 16
    ensures forall l :: 0 <= l <= 15 ==> totalSyms[l] == CountOf(codeSize[..], l, codeSize.Length)
  {
    ghost var s := codeSize[..];
    totalSyms := new nat[16](_ => 0);
    for i := 0 to codeSize.Length
      invariant forall l :: 0 <= l <= 15 ==> totalSyms[l] == CountOf(s, l, i)
    {
      assert codeSize[i] == s[i];
      CountStep(s, i);
      totalSyms[codeSize[i]] := totalSyms[codeSize[i]] + 1;
    }
  }

  /** The first code of every size; total is twice Kraft's sum in units of 2^-15. */
  method FirstCodes(totalSyms: array<nat>, ghost s: seq<nat>) returns (nextCode: array<nat>, usedSyms: nat, total: nat)
    requires totalSyms.Length == 16 && forall l :: 0 <= l <= 15 ==> totalSyms[l] == CountOf(s, l, |s|)
    ensures fresh(nextCode) && nextCode.Length == 17 && NextCodes(nextCode[..], s, 0, 15)
    ensures usedSyms == UsedSyms(s, 15) && total == 2 * Units(s, 15, 15)
  {
    hide *;
    nextCode := new nat[17](_ => 0);
    usedSyms, total := 0, 0;
    NoFirstCodes(nextCode[..], s);
    NoneUsed(s);
    TotalIsUnits(s, 15);
    for i := 1 to 16
      invariant usedSyms == UsedSyms(s, i - 1) && total == FirstCode(s, i) && FirstCodesTo(nextCode[..], s, i + 1)
    {
      ghost var next := nextCode[..];
      var c := totalSyms[i];
      NextFirstCode(next, s, i + 1, total, c);
      UsedStep(s, i);
      usedSyms := usedSyms + c;
      total := (total + c) * 2;
      nextCode[i + 1] := total;
      assert nextCode[..] == next[i + 1 := total];
    }
    AllFirstCodes(nextCode[..], s);
  }

  lemma AllFirstCodes(next: seq<nat>, sizes: seq<nat>)
    requires |next| == 17 && FirstCodesTo(next, sizes, 17)
    ensures NextCodes(next, sizes, 0, 15)
  {
    hide FirstCode;
  }

  lemma NoneUsed(sizes: seq<nat>)
    ensures UsedSyms(sizes, 0) == 0
  {
  }

  lemma TotalIsUnits(sizes: seq<nat>, k: nat)
    requires k >= 1
    ensures FirstCode(sizes, k + 1) == 2 * Units(sizes, k, k)
  {
    EndIsUnits(sizes, k, k);
    assert Pow2(0) == 1;
  }

  lemma UsedStep(sizes: seq<nat>, k: nat)
    requires k >= 1
    ensures UsedSyms(sizes, k) == UsedSyms(sizes, k - 1) + CountOf(sizes, k, |sizes|)
  {
  }

  lemma NothingBuilt(sizes: seq<nat>, L: seq<int>, T: seq<int>)
    requires |L| == FAST_LOOKUP_SIZE && |T| == 2 * MAX_HUFF_SYMBOLS
    requires (forall p :: 0 <= p < |L| ==> L[p] == 0) && (forall k :: 0 <= k < |T| ==> T[k] == 0)
    ensures Built(sizes, 0, 9, [], L, T)
  {
  }

  method Clear(a: array<int>)
    modifies a
    ensures forall x :: 0 <= x < a.Length ==> a[x] == 0
  {
    for i := 0 to a.Length
      invariant forall x :: 0 <= x < i ==> a[x] == 0
    {
      a[i] := 0;
    }
  }

  /** Enters symbol i into the tables. */
  method EnterSymbol(lookUp: array<int>, tree: array<int>, nextCode: array<nat>, treeNext: int, i: nat, codeSize: nat,
                     ghost sizes: seq<nat>, ghost P: seq<Node>)
    returns (treeNext': int, ghost P': seq<Node>)
    requires lookUp != tree && nextCode.Length == 17 && Fits(sizes) && i < |sizes| && codeSize == sizes[i]
    requires Built(sizes, i, 9, P, lookUp[..], tree[..]) && treeNext == NodeValue(|P|)
    requires NextCodes(nextCode[..], sizes, i, 15)
    modifies lookUp, tree, nextCode
    ensures Built(sizes, i + 1, 9, P', lookUp[..], tree[..]) && treeNext' == NodeValue(|P'|)
    ensures NextCodes(nextCode[..], sizes, i + 1, 15)
  {
    treeNext', P' := treeNext, P;
    CountStep(sizes, i);
    FitsIsCodable(sizes);
    TreeSize(sizes, i, 9, P, lookUp[..], tree[..]);
    hide Built, Fits, Codable, FirstCode, Code, CountOf, Rev, RevCode, Filled;
    if codeSize == 0 {
      SkipUnused(sizes, i, i + 1, P, lookUp[..], tree[..]);
      return;
    }
    CodeFits16(sizes, i, 15);
    var curCode := nextCode[codeSize];
    nextCode[codeSize] := nextCode[codeSize] + 1;
    assert NextCodes(nextCode[..], sizes, i + 1, 15);
    hide NextCodes;
    var revCode := ReverseBits(curCode, codeSize);
    RevCodeIs(sizes, i);
    treeNext', P' := EnterCode(lookUp, tree, treeNext, i, codeSize, revCode, sizes, P);
  }

  method EnterCode(lookUp: array<int>, tree: array<int>, treeNext: int, sym: nat, codeSize: nat, revCode: nat,
                   ghost sizes: seq<nat>, ghost P: seq<Node>)
    returns (treeNext': int, ghost P': seq<Node>)
    requires lookUp != tree && Fits(sizes) && sym < |sizes| && codeSize == sizes[sym] >= 1
             && revCode == RevCode(sizes, sym)
    requires Built(sizes, sym, 9, P, lookUp[..], tree[..]) && treeNext == NodeValue(|P|)
    modifies lookUp, tree
    ensures Built(sizes, sym + 1, 9, P', lookUp[..], tree[..]) && treeNext' == NodeValue(|P'|)
  {
    FitsIsCodable(sizes);
    ghost var L, T := lookUp[..], tree[..];
    TreeSize(sizes, sym, 9, P, L, T);
    hide *;
    if codeSize <= FAST_LOOKUP_BITS {
      FillShort(lookUp, revCode, codeSize, sym, sizes);
      EnterShort(sizes, sym, sym + 1, P, L, lookUp[..], T);
      treeNext', P' := treeNext, P;
      assert tree[..] == T;
    } else {
      treeNext', P' := EnterLong(lookUp, tree, treeNext, sym, codeSize, revCode, sizes, P);
    }
  }

  /** Builds the decoding tables for a vector of code sizes, or rejects it. */
  method BuildTable(codeSize: array<nat>, lookUp: array<int>, tree: array<int>) returns (ok: bool, ghost P: seq<Node>)
    requires codeSize.Length <= MAX_HUFF_SYMBOLS && lookUp.Length == FAST_LOOKUP_SIZE
             && tree.Length == 2 * MAX_HUFF_SYMBOLS
    requires lookUp != tree && forall i :: 0 <= i < codeSize.Length ==> codeSize[i] <= 15
    modifies lookUp, tree
    ensures ok <==> Accepts(codeSize[..])
    ensures ok ==> Fits(codeSize[..]) && Ready(codeSize[..], P, lookUp[..], tree[..])
  {
    P := [];
    Clear(lookUp);
    Clear(tree);
    ghost var sizes := codeSize[..];
    var totalSyms := CountSizes(codeSize);
    var nextCode, usedSyms, total := FirstCodes(totalSyms, sizes);
    Pow2Values();
    assert codeSize[..] == sizes;
    if total != 65536 && usedSyms > 1 {
      ok := false;
      return;
    }
    ok := true;
    AcceptedFits(sizes);
    NothingBuilt(sizes, lookUp[..], tree[..]);
    P := EnterAll(codeSize, lookUp, tree, nextCode, sizes);
    assert codeSize[..] == sizes;
  }

  method EnterAll(codeSize: array<nat>, lookUp: array<int>, tree: array<int>, nextCode: array<nat>,
                  ghost sizes: seq<nat>)
    returns (ghost P: seq<Node>)
    requires lookUp != tree && sizes == codeSize[..] && Fits(sizes) && nextCode.Length == 17
    requires codeSize != nextCode
    requires Built(sizes, 0, 9, [], lookUp[..], tree[..]) && NextCodes(nextCode[..], sizes, 0, 15)
    modifies lookUp, tree, nextCode
    ensures Ready(sizes, P, lookUp[..], tree[..])
  {
    P := [];
    assert NodeValue(0) == -1;
    assert forall i :: 0 <= i < codeSize.Length ==> codeSize[i] == sizes[i];
    hide *;
    var treeNext := -1;
    for i := 0 to codeSize.Length
      invariant Built(sizes, i, 9, P, lookUp[..], tree[..]) && treeNext == NodeValue(|P|)
      invariant NextCodes(nextCode[..], sizes, i, 15)
    {
      treeNext, P := EnterSymbol(lookUp, tree, nextCode, treeNext, i, codeSize[i], sizes, P);
    }
    IsReady(sizes, P, lookUp[..], tree[..]);
  }

  lemma IsReady(sizes: seq<nat>, P: seq<Node>, L: seq<int>, T: seq<int>)
    requires Fits(sizes) && Built(sizes, |sizes|, 9, P, L, T)
    ensures Ready(sizes, P, L, T)
  {
    hide Built;
  }
}
