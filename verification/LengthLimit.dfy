/** Limiting the code lengths: the histogram of lengths is rebalanced so that no length exceeds a limit. */
module LengthLimit {
  import opened Arith
  import opened Bits

  const MAX_SUPPORTED_HUFF_CODESIZE := 32

  /** Kraft's sum of the histogram entries 1..k, in units of 2^-m. */
  function Units(c: seq<int>, k: nat, m: nat): int
    requires k < |c| && k <= m
  {
    if k == 0 then 0 else Units(c, k - 1, m) + c[k] * Pow2(m - k)
  }

  /** The number of codes of length 1..k. */
  function Total(c: seq<int>, k: nat): int
    requires k < |c|
  {
    if k == 0 then 0 else Total(c, k - 1) + c[k]
  }

  predicate NonNegative(c: seq<int>) {
    forall i :: 0 <= i < |c| ==> c[i] >= 0
  }

  lemma {:induction false} UnitsUpdate(c: seq<int>, k: nat, m: nat, j: nat, x: int)
    requires k < |c| && k <= m && j < |c|
    ensures Units(c[j := x], k, m) == Units(c, k, m) + if 1 <= j <= k then (x - c[j]) * Pow2(m - j) else 0
    ensures Total(c[j := x], k) == Total(c, k) + if 1 <= j <= k then x - c[j] else 0
  {
    if k > 0 {
      UnitsUpdate(c, k - 1, m, j, x);
      if j == k { DistributeRight(c[j], x - c[j], Pow2(m - j)); }
    }
  }

  lemma {:induction false} UnitsScale(c: seq<int>, k: nat, m: nat, t: nat)
    requires k < |c| && k <= m <= t
    ensures Units(c, k, t) == Units(c, k, m) * Pow2(t - m)
  {
    if k > 0 {
      UnitsScale(c, k - 1, m, t);
      Pow2Add(m - k, t - m);
      MulAssoc(c[k], Pow2(m - k), Pow2(t - m));
      DistributeRight(Units(c, k - 1, m), c[k] * Pow2(m - k), Pow2(t - m));
    }
  }

  lemma {:induction false} UnitsMono(c: seq<int>, k: nat, n: nat, m: nat)
    requires NonNegative(c) && k <= n < |c| && n <= m
    ensures 0 <= Units(c, k, m) <= Units(c, n, m)
    decreases n
  {
    if k < n {
      UnitsMono(c, k, n - 1, m);
    } else if n > 0 {
      UnitsMono(c, k - 1, n - 1, m);
    }
  }

  /** A range of entries weighs at least one unit and at most one code's worth of 2^-k each. */
  lemma {:induction false} TailUnits(c: seq<int>, k: nat, n: nat, m: nat)
    requires NonNegative(c) && k <= n < |c| && n <= m
    ensures Units(c, n, m) - Units(c, k, m) <= (Total(c, n) - Total(c, k)) * Pow2(m - k)
    decreases n
  {
    if k < n {
      TailUnits(c, k, n - 1, m);
      Pow2Mono(m - n, m - k);
      MulMono(Pow2(m - n), Pow2(m - k), c[n]);
      DistributeRight(Total(c, n - 1) - Total(c, k), c[n], Pow2(m - k));
    }
  }

  lemma {:induction false} TotalMono(c: seq<int>, k: nat, n: nat)
    requires NonNegative(c) && k <= n < |c|
    ensures 0 <= Total(c, k) <= Total(c, n)
    decreases n
  {
    if k < n { TotalMono(c, k, n - 1); } else if n > 0 { TotalMono(c, k - 1, n - 1); }
  }

  /** If no entry 1..k is positive they weigh nothing. */
  lemma {:induction false} NoUnits(c: seq<int>, k: nat, m: nat)
    requires k < |c| && k <= m && forall i :: 1 <= i <= k ==> c[i] == 0
    ensures Units(c, k, m) == 0 && Total(c, k) == 0
  {
    if k > 0 { NoUnits(c, k - 1, m); }
  }

  /** The histogram after all lengths above m have been counted as m. */
  ghost function Folded(c: seq<int>, m: nat): seq<int>
    requires |c| == 33 && 1 <= m <= 32
  {
    c[m := c[m] + Total(c, 32) - Total(c, m)]
  }

  lemma FoldedUnits(c: seq<int>, m: nat)
    requires |c| == 33 && 1 <= m <= 32
    ensures var x := Total(c, 32) - Total(c, m); var d := Folded(c, m);
            && Total(d, m) == Total(c, 32)
            && Units(d, m, m) == Units(c, m, m) + x && Units(d, m - 1, m) == Units(c, m - 1, m)
  {
    var x := c[m] + Total(c, 32) - Total(c, m);
    UnitsUpdate(c, m, m, m, x);
    UnitsUpdate(c, m - 1, m, m, x);
  }

  lemma FoldedIsNonNegative(c: seq<int>, m: nat)
    requires |c| == 33 && 1 <= m <= 32 && NonNegative(c)
    ensures NonNegative(Folded(c, m))
  {
    TotalMono(c, m, 32);
  }

  lemma FoldedFacts(c: seq<int>, m: nat)
    requires |c| == 33 && 1 <= m <= 32 && NonNegative(c)
    requires Units(c, 32, 32) == Pow2(32)
    ensures var d := Folded(c, m);
            && NonNegative(d) && Total(d, m) == Total(c, 32)
            && Units(d, m - 1, m) <= Pow2(m) <= Units(d, m, m)
  {
    hide *;
    TotalMono(c, m, 32);
    assert NonNegative(Folded(c, m)) by { FoldedIsNonNegative(c, m); }
    var x := Total(c, 32) - Total(c, m);
    FoldedUnits(c, m);
    TailUnits(c, m, 32, 32);
    UnitsScale(c, m, m, 32);
    UnitsScale(c, m - 1, m, 32);
    UnitsMono(c, m - 1, 32, 32);
    Pow2Add(m, 32 - m);
    Rescaled(Units(c, m, m), Units(c, m - 1, m), x, Pow2(m), 32 - m);
  }

  lemma Rescaled(u: int, v: int, x: int, p: int, k: nat)
    requires p * Pow2(k) - u * Pow2(k) <= x * Pow2(k) && v * Pow2(k) <= p * Pow2(k)
    ensures v <= p <= u + x
  {
    hide *;
    DistributeRight(u, x, Pow2(k));
    Cancel(p, u + x, k);
    Cancel(v, p, k);
  }

  // ----- one turn of the rebalancing loop

  /** What the loop keeps for n codes and limit m. */
  ghost predicate Rebalancing(c: seq<int>, n: int, m: nat) {
    && |c| == 33 && 1 <= m <= 32 && NonNegative(c)
    && Total(c, m) == n <= Pow2(m)
    && Units(c, m - 1, m) <= Pow2(m) <= Units(c, m, m)
  }

  /** A code of length m is dropped and the longest shorter code, of length i, is split in two. */
  ghost function Rebalance(c: seq<int>, i: nat, m: nat): seq<int>
    requires |c| == 33 && 1 <= i < m <= 32
  {
    var d := c[m := c[m] - 1];
    var e := d[i := d[i] - 1];
    e[i + 1 := e[i + 1] + 2]
  }

  lemma SplitUnits(c: seq<int>, i: nat, m: nat, k: nat)
    requires |c| == 33 && 1 <= i < m <= 32 && k <= m
    ensures var d := Rebalance(c, i, m);
            && Units(d, k, m) == Units(c, k, m) - (if k == m then 1 else if k == i then Pow2(m - i) else 0)
            && Total(d, m) == Total(c, m)
  {
    hide *;
    RebalanceIs(c, i, m);
    var a := c[m := c[m] - 1];
    var b := a[i := a[i] - 1];
    SplitOne(c, m, k, m, c[m] - 1);
    SplitOne(a, m, k, i, a[i] - 1);
    SplitOne(b, m, k, i + 1, b[i + 1] + 2);
    PowHalves(m, i);
  }

  lemma SplitOne(c: seq<int>, m: nat, k: nat, j: nat, x: int)
    requires |c| == 33 && k <= m <= 32 && 1 <= j <= m
    ensures Units(c[j := x], k, m) == Units(c, k, m) + if j <= k then (x - c[j]) * Pow2(m - j) else 0
    ensures Total(c[j := x], m) == Total(c, m) + x - c[j]
  {
    hide *;
    UnitsUpdate(c, k, m, j, x);
    UnitsUpdate(c, m, m, j, x);
  }

  lemma RebalanceIs(c: seq<int>, i: nat, m: nat)
    requires |c| == 33 && 1 <= i < m <= 32
    ensures var a := c[m := c[m] - 1];
            var b := a[i := a[i] - 1];
            Rebalance(c, i, m) == b[i + 1 := b[i + 1] + 2]
  {
  }

  lemma PowHalves(m: nat, i: nat)
    requires i < m
    ensures Pow2(m - i) == 2 * Pow2(m - i - 1) && Pow2(m - m) == 1
  {
  }

  lemma TurnKeeps(c: seq<int>, n: int, m: nat, i: nat)
    requires Rebalancing(c, n, m) && Units(c, m, m) != Pow2(m) && 1 <= i < m && c[i] > 0
    ensures Rebalancing(Rebalance(c, i, m), n, m)
    ensures Units(Rebalance(c, i, m), m, m) == Units(c, m, m) - 1
  {
    LimitFacts(c, m);
    hide Units, Total, Pow2;
    SplitUnits(c, i, m, m);
    SplitUnits(c, i, m, m - 1);
  }

  lemma LimitFacts(c: seq<int>, m: nat)
    requires |c| == 33 && 1 <= m <= 32
    ensures Units(c, m, m) == Units(c, m - 1, m) + c[m] && Pow2(1) == 2 && Pow2(m) >= 1
  {
  }

  // ----- how much the limit costs

  /** Limiting c to m has made e: the lengths below i have stayed, and the lengths of few codes from i on have grown. */
  ghost predicate LimitedFrom(c: seq<int>, e: seq<int>, m: nat, i: nat) {
    && |c| == |e| == 33 && 1 <= i < m <= 32
    && (forall j :: 1 <= j < i ==> e[j] == c[j]) && 0 <= e[i] <= c[i]
    && Units(c, m - 1, m) <= Units(e, i, m) + 2 * Total(e, m)
  }

  /** While the loop runs: i is the least level at which a code has been split, and the levels above it hold the
      remains of one split. */
  ghost predicate Progress(c: seq<int>, e: seq<int>, n: int, m: nat, i: nat) {
    && |c| == |e| == 33 && 1 <= i < m <= 32
    && (forall j :: 1 <= j < i ==> e[j] == c[j]) && e[i] <= c[i]
    && Units(e, m - 1, m) - Units(e, i, m) <= Pow2(m - i) <= n
  }

  lemma {:induction false} NoneBetween(c: seq<int>, i: nat, k: nat, m: nat)
    requires i <= k < |c| && k <= m && forall j :: i < j <= k ==> c[j] == 0
    ensures Units(c, k, m) == Units(c, i, m)
    decreases k
  {
    if i < k { NoneBetween(c, i, k - 1, m); }
  }

  /** A level can be split down to only if the codes of the limit fill a whole code of that level. */
  lemma DeepEnough(c: seq<int>, n: int, m: nat, k: nat)
    requires Rebalancing(c, n, m) && Units(c, m, m) > Pow2(m) && Units(c, m - 1, m) < Pow2(m)
    requires 1 <= k < m && forall j :: k < j < m ==> c[j] == 0
    ensures Pow2(m - k) <= n
  {
    LimitFacts(c, m);
    TotalMono(c, m - 1, m);
    assert c[m] <= n;
    hide Units, Total;
    NoneBetween(c, k, m - 1, m);
    UnitsScale(c, k, k, m);
    Pow2Add(k, m - k);
    BelowWhole(Units(c, k, k), Pow2(k), Pow2(m - k));
  }

  lemma BelowWhole(u: int, p: int, q: nat)
    requires u * q < p * q
    ensures u * q + q <= p * q
  {
    hide *;
    if p <= u { MulMono(p, u, q); }
    MulMono(u + 1, p, q);
    DistributeRight(u, 1, q);
  }

  lemma ProgressStep(c: seq<int>, e: seq<int>, n: int, m: nat, i: nat, k: nat)
    requires Progress(c, e, n, m, i) && Rebalancing(e, n, m) && Units(e, m, m) > Pow2(m) && Units(e, m - 1, m) < Pow2(m)
    requires 1 <= k < m && e[k] > 0 && forall j :: k < j < m ==> e[j] == 0
    ensures Progress(c, Rebalance(e, k, m), n, m, if k < i then k else i)
    ensures Units(Rebalance(e, k, m), m - 1, m) < Pow2(m)
  {
    hide *;
    DeepEnough(e, n, m, k);
    ProgressIs(c, e, n, m, i);
    SplitUnits(e, k, m, m - 1);
    PowIsPositive(m - k);
    if i < k {
      SplitUnits(e, k, m, i);
      ProgressAbove(c, e, n, m, i, k);
    } else {
      NoneBetween(e, k, m - 1, m);
      SplitUnits(e, k, m, k);
      ProgressBelow(c, e, n, m, i, k);
    }
  }

  lemma ProgressIs(c: seq<int>, e: seq<int>, n: int, m: nat, i: nat)
    requires Progress(c, e, n, m, i)
    ensures |c| == |e| == 33 && 1 <= i < m <= 32 && (forall j :: 1 <= j < i ==> e[j] == c[j]) && e[i] <= c[i]
    ensures Units(e, m - 1, m) - Units(e, i, m) <= Pow2(m - i) <= n
  {
  }

  lemma ProgressAbove(c: seq<int>, e: seq<int>, n: int, m: nat, i: nat, k: nat)
    requires Progress(c, e, n, m, i) && i < k < m
    requires Units(Rebalance(e, k, m), m - 1, m) <= Units(e, m - 1, m)
             && Units(Rebalance(e, k, m), i, m) == Units(e, i, m)
    ensures Progress(c, Rebalance(e, k, m), n, m, i)
  {
    hide Units, Pow2;
  }

  lemma ProgressBelow(c: seq<int>, e: seq<int>, n: int, m: nat, i: nat, k: nat)
    requires Progress(c, e, n, m, i) && 1 <= k <= i && Pow2(m - k) <= n
    requires Units(Rebalance(e, k, m), m - 1, m) <= Units(Rebalance(e, k, m), k, m) + Pow2(m - k)
    ensures Progress(c, Rebalance(e, k, m), n, m, k)
  {
    hide Units, Pow2;
  }

  lemma PowIsPositive(k: nat)
    ensures Pow2(k) > 0
  {
  }

  lemma ProgressStarts(c: seq<int>, n: int, m: nat)
    requires |c| == 33 && 2 <= m <= 32 && n >= 2
    ensures Progress(c, Folded(c, m), n, m, m - 1)
  {
    LimitFacts(c, m);
    hide Units, Total;
  }

  /** Unless the loop has nothing to do, the codes shorter than the limit leave some code space free. */
  lemma SpaceLeft(c: seq<int>, m: nat)
    requires |c| == 33 && 1 <= m <= 32 && NonNegative(c) && Units(c, 32, 32) == Pow2(32)
    ensures var d := Folded(c, m); Units(d, m, m) > Pow2(m) ==> Units(d, m - 1, m) < Pow2(m)
  {
    hide *;
    FoldedFacts(c, m);
    FoldedUnits(c, m);
    FoldedTop(c, m);
    if Units(c, m - 1, m) >= Pow2(m) {
      UnitsScale(c, m - 1, m, 32);
      Pow2Add(m, 32 - m);
      MulMono(Pow2(m), Units(c, m - 1, m), Pow2(32 - m));
      TailWeighs(c, m - 1, 32, 32);
    }
  }

  lemma FoldedTop(c: seq<int>, m: nat)
    requires |c| == 33 && 1 <= m <= 32
    ensures Units(Folded(c, m), m, m) == Units(c, m - 1, m) + Total(c, 32) - Total(c, m - 1)
  {
    FoldedUnits(c, m);
    LimitFacts(c, m);
  }

  lemma {:induction false} TailWeighs(c: seq<int>, k: nat, n: nat, m: nat)
    requires NonNegative(c) && k <= n < |c| && n <= m
    ensures Units(c, n, m) - Units(c, k, m) >= Total(c, n) - Total(c, k)
    decreases n
  {
    if k < n {
      TailWeighs(c, k, n - 1, m);
      MulMono(1, Pow2(m - n), c[n]);
    }
  }

  lemma ProgressEnds(c: seq<int>, e: seq<int>, n: int, m: nat, i: nat)
    requires Progress(c, e, n, m, i) && Rebalancing(e, n, m) && Units(e, m, m) == Pow2(m)
             && Units(c, m - 1, m) <= Pow2(m)
    ensures LimitedFrom(c, e, m, i)
  {
    LimitFacts(e, m);
    TotalMono(e, m - 1, m);
    assert e[m] <= n;
    hide Units, Total, Pow2;
  }

  /** While the code space is over-subscribed some shorter code is left to split. */
  lemma SomethingToSplit(c: seq<int>, n: int, m: nat)
    requires Rebalancing(c, n, m) && Units(c, m, m) != Pow2(m)
    ensures c[m] >= 1 && exists i :: 1 <= i < m && c[i] > 0
  {
    if forall i :: 1 <= i < m ==> c[i] == 0 {
      NoUnits(c, m - 1, m);
    }
  }

  /** Splits the longest code shorter than the limit, if there is one. */
  method SplitLongest(numCodes: array<int>, maxCodeSize: nat) returns (ghost i: nat)
    requires numCodes.Length == 33 && 1 <= maxCodeSize <= 32 && NonNegative(numCodes[..])
    requires exists j :: 1 <= j < maxCodeSize && numCodes[j] > 0
    modifies numCodes
    ensures 1 <= i < maxCodeSize && old(numCodes[i]) > 0
            && forall j :: i < j < maxCodeSize ==> old(numCodes[..])[j] == 0
    ensures numCodes[..] == old(numCodes[..])[i := old(numCodes[i]) - 1][i + 1 := old(numCodes[i + 1]) + 2]
  {
    i := 0;
    ghost var e := numCodes[..];
    for k := maxCodeSize downto 1
      invariant numCodes[..] == e
      invariant exists j :: 1 <= j < k && numCodes[j] > 0
      invariant forall j :: k <= j < maxCodeSize ==> e[j] == 0
    {
      if numCodes[k] != 0 {
        numCodes[k] := numCodes[k] - 1;
        numCodes[k + 1] := numCodes[k + 1] + 2;
        i := k;
        break;
      }
    }
  }

  /** One turn of the rebalancing loop: the longest code shorter than the limit is split. */
  method DropOne(numCodes: array<int>, ghost n: int, maxCodeSize: nat) returns (ghost i: nat)
    requires numCodes.Length == 33 && Rebalancing(numCodes[..], n, maxCodeSize)
    requires Units(numCodes[..], maxCodeSize, maxCodeSize) != Pow2(maxCodeSize)
    modifies numCodes
    ensures Rebalancing(numCodes[..], n, maxCodeSize)
    ensures Units(numCodes[..], maxCodeSize, maxCodeSize) == old(Units(numCodes[..], maxCodeSize, maxCodeSize)) - 1
    ensures 1 <= i < maxCodeSize <= 32 && old(numCodes[i]) > 0
            && numCodes[..] == Rebalance(old(numCodes[..]), i, maxCodeSize)
    ensures forall j :: i < j < maxCodeSize ==> old(numCodes[..])[j] == 0
  {
    hide Units, Total;
    ghost var e := numCodes[..];
    SomethingToSplit(e, n, maxCodeSize);
    ghost var j :| 1 <= j < maxCodeSize && e[j] > 0;
    numCodes[maxCodeSize] := numCodes[maxCodeSize] - 1;
    assert numCodes[j] > 0;
    ghost var d := numCodes[..];
    assert d == e[maxCodeSize := e[maxCodeSize] - 1];
    i := SplitLongest(numCodes, maxCodeSize);
    forall k | i < k < maxCodeSize ensures e[k] == 0 { assert d[k] == e[k]; }
    assert numCodes[..] == Rebalance(e, i, maxCodeSize);
    TurnKeeps(e, n, maxCodeSize, i);
  }

  /** Counts every length above the limit as the limit. */
  method FoldLong(numCodes: array<int>, maxCodeSize: nat)
    requires numCodes.Length == 33 && 1 <= maxCodeSize <= 32
    modifies numCodes
    ensures numCodes[..] == Folded(old(numCodes[..]), maxCodeSize)
  {
    ghost var c := numCodes[..];
    for i := maxCodeSize + 1 to MAX_SUPPORTED_HUFF_CODESIZE + 1
      invariant numCodes[..] == c[maxCodeSize := c[maxCodeSize] + Total(c, i - 1) - Total(c, maxCodeSize)]
    {
      numCodes[maxCodeSize] := numCodes[maxCodeSize] + numCodes[i];
    }
  }

  /** Kraft's sum of the lengths up to the limit. */
  method Measure(numCodes: array<int>, maxCodeSize: nat) returns (total: int)
    requires numCodes.Length == 33 && 1 <= maxCodeSize <= 32
    ensures total == Units(numCodes[..], maxCodeSize, maxCodeSize)
  {
    total := 0;
    ghost var d := numCodes[..];
    for i := maxCodeSize downto 0
      invariant total == Units(d, maxCodeSize, maxCodeSize) - Units(d, i, maxCodeSize)
    {
      total := total + numCodes[i + 1] * Pow2(maxCodeSize - (i + 1));
    }
  }

  /** tdefl_huffman_enforce_max_code_size: a complete histogram of lengths stays complete, keeps its
      number of codes, and has no length above the limit. */
  method EnforceMaxCodeSize(numCodes: array<int>, codeListLen: int, maxCodeSize: nat)
    requires numCodes.Length == MAX_SUPPORTED_HUFF_CODESIZE + 1 && 1 <= maxCodeSize <= 15
    requires NonNegative(numCodes[..]) && Total(numCodes[..], 32) == codeListLen
    requires codeListLen >= 2 ==> codeListLen <= Pow2(maxCodeSize) && Units(numCodes[..], 32, 32) == Pow2(32)
    modifies numCodes
    ensures NonNegative(numCodes[..])
    ensures codeListLen <= 1 ==> numCodes[..] == old(numCodes[..])
    ensures codeListLen >= 2 ==>
              && Units(numCodes[..], maxCodeSize, maxCodeSize) == Pow2(maxCodeSize)
              && Total(numCodes[..], maxCodeSize) == codeListLen
    ensures (forall i :: maxCodeSize < i <= 32 ==> old(numCodes[i]) == 0) ==> numCodes[..] == old(numCodes[..])
    ensures codeListLen >= 2 && maxCodeSize >= 2 ==>
            exists i: nat :: LimitedFrom(old(numCodes[..]), numCodes[..], maxCodeSize, i)
  {
    if codeListLen <= 1 {
      return;
    }
    ghost var c, m := numCodes[..], maxCodeSize;
    hide *;
    FoldLong(numCodes, maxCodeSize);
    FoldedFacts(c, m);
    SpaceLeft(c, m);
    FoldedUnits(c, m);
    if forall i :: m < i <= 32 ==> c[i] == 0 { Unfolded(c, m); }
    if m >= 2 { ProgressStarts(c, codeListLen, m); }
    NowRebalancing(Folded(c, m), codeListLen, m);
    var total := Measure(numCodes, maxCodeSize);
    ghost var i := RebalanceAll(numCodes, total, codeListLen, maxCodeSize, c);
    RebalancingIs(numCodes[..], codeListLen, m);
    if m >= 2 {
      ProgressEnds(c, numCodes[..], codeListLen, m, i);
      assert LimitedFrom(c, numCodes[..], m, i);
    }
  }

  /** The loop: every turn lowers the excess by one. */
  method RebalanceAll(numCodes: array<int>, total0: int, ghost n: int, maxCodeSize: nat, ghost c: seq<int>)
    returns (ghost i: nat)
    requires numCodes.Length == 33 && 1 <= maxCodeSize <= 32 && |c| == 33
    requires Rebalancing(numCodes[..], n, maxCodeSize)
    requires total0 == Units(numCodes[..], maxCodeSize, maxCodeSize) >= Pow2(maxCodeSize)
    requires maxCodeSize >= 2 ==> Progress(c, numCodes[..], n, maxCodeSize, maxCodeSize - 1)
    requires total0 > Pow2(maxCodeSize) ==> Units(numCodes[..], maxCodeSize - 1, maxCodeSize) < Pow2(maxCodeSize)
    modifies numCodes
    ensures Rebalancing(numCodes[..], n, maxCodeSize)
    ensures Units(numCodes[..], maxCodeSize, maxCodeSize) == Pow2(maxCodeSize)
    ensures total0 == Pow2(maxCodeSize) ==> numCodes[..] == old(numCodes[..])
    ensures maxCodeSize >= 2 ==> 1 <= i < maxCodeSize && Progress(c, numCodes[..], n, maxCodeSize, i)
  {
    hide *;
    ghost var m := maxCodeSize;
    var total := total0;
    i := m - 1;
    while total != Pow2(maxCodeSize)
      invariant Rebalancing(numCodes[..], n, m) && total == Units(numCodes[..], m, m) >= Pow2(m)
      invariant total0 == Pow2(m) ==> numCodes[..] == old(numCodes[..]) && total == total0
      invariant m >= 2 ==> 1 <= i < m && Progress(c, numCodes[..], n, m, i)
      invariant total > Pow2(m) ==> Units(numCodes[..], m - 1, m) < Pow2(m)
      decreases total - Pow2(m)
    {
      ghost var e := numCodes[..];
      ghost var k := DropOne(numCodes, n, maxCodeSize);
      ProgressStep(c, e, n, m, i, k);
      i := if k < i then k else i;
      total := total - 1;
    }
  }

  lemma NowRebalancing(c: seq<int>, n: int, m: nat)
    requires |c| == 33 && 1 <= m <= 32 && NonNegative(c) && Total(c, m) == n <= Pow2(m)
    requires Units(c, m - 1, m) <= Pow2(m) <= Units(c, m, m)
    ensures Rebalancing(c, n, m)
  {
  }

  lemma RebalancingIs(c: seq<int>, n: int, m: nat)
    requires Rebalancing(c, n, m)
    ensures |c| == 33 && 1 <= m <= 32 && NonNegative(c) && Total(c, m) == n
  {
  }

  /** When no length exceeds the limit the histogram is complete already. */
  lemma Unfolded(c: seq<int>, m: nat)
    requires |c| == 33 && 1 <= m <= 32 && Units(c, 32, 32) == Pow2(32) && forall i :: m < i <= 32 ==> c[i] == 0
    ensures Folded(c, m) == c && Units(c, m, m) == Pow2(m)
  {
    hide *;
    ZeroTail(c, m, 32);
    NothingFolded(c, m);
    UnitsScale(c, m, m, 32);
    Pow2Add(m, 32 - m);
    Cancel(Units(c, m, m), Pow2(m), 32 - m);
    Cancel(Pow2(m), Units(c, m, m), 32 - m);
  }

  lemma NothingFolded(c: seq<int>, m: nat)
    requires |c| == 33 && 1 <= m <= 32 && Total(c, 32) == Total(c, m)
    ensures Folded(c, m) == c
  {
    hide Total;
  }

  lemma {:induction false} ZeroTail(c: seq<int>, m: nat, k: nat)
    requires |c| == 33 && m <= k <= 32 && forall i :: m < i <= k ==> c[i] == 0
    ensures Total(c, k) == Total(c, m) && Units(c, k, 32) == Units(c, m, 32)
    decreases k
  {
    if m < k { ZeroTail(c, m, k - 1); }
  }
}
