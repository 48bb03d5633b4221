/** Every table of the compressor is close to the best one, limited or not. */
module NearOptimal {
  import opened Arith
  import opened Huffman
  import opened MinRedundancy
  import opened HuffmanTable
  import opened LimitCost

  /** Per symbol coded, the sizes cost at most 2n/560 bits more than any prefix code for the n symbols. */
  ghost predicate NearBest(count: seq<nat>, sizes: seq<nat>) {
    && |sizes| == |count|
    && forall g: seq<nat>, m: nat :: |g| == |count| && AllPositive(g) && Decodable(g, m) ==>
         560 * Cost(count, sizes) <= 560 * Cost(count, g) + 2 * |count| * Sum(count)
  }

  ghost predicate AllPositive(g: seq<nat>) {
    forall s :: 0 <= s < |g| ==> g[s] >= 1
  }

  // ----- sums over the listed symbols

  function Listed(A: seq<SymFreq>, f: seq<nat>): (r: seq<nat>)
    requires Distinct(A, |f|)
    ensures |r| == |A| && forall k :: 0 <= k < |A| ==> r[k] == f[A[k].sym]
  {
    seq(|A|, k requires 0 <= k < |A| => f[A[k].sym])
  }

  lemma {:induction false} CostSymmetric(w: seq<nat>, l: seq<nat>)
    requires |w| == |l|
    ensures Cost(w, l) == Cost(l, w)
  {
    if w != [] { CostSymmetric(w[1..], l[1..]); }
  }

  lemma CostLess(count: seq<nat>, f: seq<nat>, x: nat)
    requires |count| == |f| && x < |count|
    ensures Cost(count, f) == Cost(count[x := 0], f) + count[x] * f[x]
  {
    hide *;
    CostSymmetric(count, f);
    CostSymmetric(count[x := 0], f);
    CostUpdate(f, count, x, 0);
    var a: int, b: int := f[x], count[x];
    assert a * (0 - b) == -(b * a);
  }

  /** Without its last symbol, the list lists the counts without that symbol. */
  lemma ListsLess(A: seq<SymFreq>, count: seq<nat>)
    requires Lists(A, count, |count|) && A != []
    ensures var x := A[|A| - 1].sym; x < |count| && Lists(A[..|A| - 1], count[x := 0], |count|)
  {
    var n, x := |A| - 1, A[|A| - 1].sym;
    var less := count[x := 0];
    forall y | 0 <= y < |less| && less[y] > 0 ensures exists k :: 0 <= k < n && A[..n][k].sym == y {
      var k :| 0 <= k < |A| && A[k].sym == y;
      assert A[..n][k].sym == y;
    }
  }

  lemma {:induction false} ListedCost(A: seq<SymFreq>, count: seq<nat>, f: seq<nat>)
    requires Lists(A, count, |count|) && |f| == |count|
    ensures Cost(Keys(A), Listed(A, f)) == Cost(count, f)
    decreases |A|
  {
    if A == [] {
      NothingCosts(count, f);
    } else {
      var n, a := |A| - 1, A[|A| - 1];
      ListsLess(A, count);
      CostLess(count, f, a.sym);
      ListedCost(A[..n], count[a.sym := 0], f);
      assert Keys(A) == Keys(A[..n]) + [a.key] && Listed(A, f) == Listed(A[..n], f) + [f[a.sym]];
      hide Cost, Lists;
      CostAppend(Keys(A[..n]), Listed(A[..n], f), [a.key], [f[a.sym]]);
      CostOne(a.key, f[a.sym]);
    }
  }

  lemma CostOne(x: nat, y: nat)
    ensures Cost([x], [y]) == x * y
  {
    assert Cost([x][1..], [y][1..]) == 0;
  }

  lemma {:induction false} NothingCosts(count: seq<nat>, f: seq<nat>)
    requires |count| == |f| && forall x :: 0 <= x < |count| ==> count[x] == 0
    ensures Cost(count, f) == 0
  {
    if count != [] { NothingCosts(count[1..], f[1..]); }
  }

  lemma {:induction false} ListedSum(A: seq<SymFreq>, h: seq<nat>)
    requires Distinct(A, |h|)
    ensures Sum(Listed(A, h)) <= Sum(h)
    decreases |A|
  {
    if A == [] {
      SumNonNegative(h);
    } else {
      var n, x := |A| - 1, A[|A| - 1].sym;
      var g := h[x := 0];
      ListedSum(A[..n], g);
      SumUpdate(h, x, 0);
      assert Listed(A, h) == Listed(A[..n], g) + [h[x]];
      SumAppend(Listed(A[..n], g), [h[x]]);
      assert Sum([h[x]]) == h[x];
    }
  }

  /** The code space of each length. */
  function Spaces(g: seq<nat>, m: nat): (r: seq<nat>)
    requires Bounded(g, m)
    ensures |r| == |g| && forall s :: 0 <= s < |g| ==> r[s] == Pow2(m - g[s])
  {
    seq(|g|, s requires 0 <= s < |g| => Pow2(m - g[s]))
  }

  lemma {:induction false} KraftIsSum(g: seq<nat>, m: nat)
    requires Bounded(g, m)
    ensures Kraft(g, m) == Sum(Spaces(g, m))
  {
    if g != [] {
      KraftIsSum(g[1..], m);
      assert Spaces(g, m)[1..] == Spaces(g[1..], m);
    }
  }

  /** Part of a decodable code is decodable. */
  lemma ListedDecodable(A: seq<SymFreq>, g: seq<nat>, m: nat)
    requires Distinct(A, |g|) && Decodable(g, m)
    ensures Decodable(Listed(A, g), m)
  {
    hide Kraft, Pow2;
    KraftIsSum(g, m);
    KraftIsSum(Listed(A, g), m);
    ListedSum(A, Spaces(g, m));
    assert Spaces(Listed(A, g), m) == Listed(A, Spaces(g, m));
  }

  function Ones(n: nat): (r: seq<nat>)
    ensures |r| == n && forall i :: 0 <= i < n ==> r[i] == 1
  {
    seq(n, _ => 1)
  }

  lemma {:induction false} SumOnes(s: seq<nat>)
    requires forall i :: 0 <= i < |s| ==> s[i] == 1
    ensures Sum(s) == |s|
  {
    if s != [] { SumOnes(s[1..]); }
  }

  lemma {:induction false} CostOnes(w: seq<nat>, s: seq<nat>)
    requires |w| == |s| && forall i :: 0 <= i < |s| ==> s[i] == 1
    ensures Cost(w, s) == Sum(w)
  {
    if w != [] { CostOnes(w[1..], s[1..]); }
  }

  lemma ListSizes(A: seq<SymFreq>, count: seq<nat>)
    requires Lists(A, count, |count|)
    ensures |A| <= |count| && Sum(Keys(A)) == Sum(count) >= 0
  {
    var s := Ones(|count|);
    ListedSum(A, s);
    SumOnes(s);
    SumOnes(Listed(A, s));
    ListedCost(A, count, s);
    CostOnes(count, s);
    CostOnes(Keys(A), Listed(A, s));
    SumNonNegative(count);
  }

  // ----- the table

  lemma SortedLengths(w: seq<nat>, l: seq<nat>)
    requires MinimumRedundancy(w, l) && (forall k :: 0 <= k < |l| ==> l[k] <= 32)
    ensures Descending(l)
  {
  }

  lemma AtLeastAsGood(w: seq<nat>, l: seq<nat>, g: seq<nat>, m: nat)
    requires MinimumRedundancy(w, l) && |g| == |w| && AllPositive(g) && Decodable(g, m)
    ensures |l| == |w| && Cost(w, l) <= Cost(w, g)
  {
  }

  /** The sizes are near the minimum-redundancy lengths. */
  lemma NearLengths(A: seq<SymFreq>, sizes: seq<nat>, l: seq<nat>)
    requires |l| == |A| && Distinct(A, |sizes|) && Best(sizes, A, l, 15) && Limited(A, sizes, l, 15)
    requires MinimumRedundancy(Keys(A), l) && (forall k :: 0 <= k < |l| ==> l[k] <= 32)
             && (|A| >= 2 ==> WeightBounded(Keys(A), l))
    ensures 560 * Cost(Keys(A), Listed(A, sizes)) <= 560 * Cost(Keys(A), l) + 2 * |A| * Sum(Keys(A))
  {
    hide *;
    SumNonNegative(Keys(A));
    if |A| >= 2 {
      SortedLengths(Keys(A), l);
      var e := HandedFrom(A, sizes, l);
      LimitedIsNear(Keys(A), l, Listed(A, sizes), e);
    } else {
      JustOne(Keys(A), l);
      FewAreBest(A, sizes, l);
    }
  }

  lemma HandedFrom(A: seq<SymFreq>, sizes: seq<nat>, l: seq<nat>) returns (e: seq<int>)
    requires |l| == |A| >= 2 && Distinct(A, |sizes|) && Limited(A, sizes, l, 15)
    ensures Source(e, l, 15) && Histogram(e, l, 15) && |e| == 33
    ensures forall k: nat :: k < |l| ==> Listed(A, sizes)[k] == LengthAt(e, |l|, k, 16)
  {
    hide Source, Histogram;
    e :| Source(e, l, 15) && Histogram(e, l, 15) && HandsOut(A, sizes, e, 15);
  }

  lemma FewAreBest(A: seq<SymFreq>, sizes: seq<nat>, l: seq<nat>)
    requires |l| == |A| <= 1 && Distinct(A, |sizes|) && Best(sizes, A, l, 15) && (|l| == 1 ==> l[0] == 1)
    ensures Listed(A, sizes) == l
  {
  }

  lemma TableIsNearBest(count: seq<nat>, sizes: seq<nat>, A: seq<SymFreq>, l: seq<nat>)
    requires BestLengths(count, A, l) && |l| == |A| && |sizes| == |count| && Distinct(A, |sizes|)
    requires Best(sizes, A, l, 15) && Limited(A, sizes, l, 15) && (|A| >= 2 ==> WeightBounded(Keys(A), l))
    requires Sum(count) < 0x1_0000
    ensures NearBest(count, sizes)
  {
    LengthsFitList(count, A, l);
    forall g: seq<nat>, m: nat | |g| == |count| && AllPositive(g) && Decodable(g, m)
      ensures 560 * Cost(count, sizes) <= 560 * Cost(count, g) + 2 * |count| * Sum(count)
    {
      hide *;
      BestLengthsAre(count, A, l);
      ListSizes(A, count);
      NearLengths(A, sizes, l);
      ListedCost(A, count, sizes);
      ListedCost(A, count, g);
      ListedDecodable(A, g, m);
      ListedPositive(A, g);
      AtLeastAsGood(Keys(A), l, Listed(A, g), m);
      MulMono(2 * |A|, 2 * |count|, Sum(count));
    }
  }

  lemma LengthsFitList(count: seq<nat>, A: seq<SymFreq>, l: seq<nat>)
    requires BestLengths(count, A, l) && |l| == |A| && (|A| >= 2 ==> WeightBounded(Keys(A), l)) && Sum(count) < 0x1_0000
    ensures forall k :: 0 <= k < |l| ==> l[k] <= 32
  {
    BestLengthsAre(count, A, l);
    ListSizes(A, count);
    forall k | 0 <= k < |l| ensures l[k] <= 32 {
      if |A| >= 2 { ShortEnough(Keys(A), l, k); } else { JustOne(Keys(A), l); }
    }
  }

  lemma ShortEnough(w: seq<nat>, l: seq<nat>, k: nat)
    requires WeightBounded(w, l) && k < |w| && w[k] >= 1 && Sum(w) < 0x1_0000
    ensures |l| == |w| && l[k] <= 23
  {
    hide Fib, Sum;
    MulMono(1, w[k], Fib(l[k] + 1));
    assert Fib(l[k] + 1) * w[k] == w[k] * Fib(l[k] + 1);
    Fib25();
    if l[k] >= 24 { FibMono(25, l[k] + 1); }
  }

  lemma ListedPositive(A: seq<SymFreq>, g: seq<nat>)
    requires Distinct(A, |g|) && AllPositive(g)
    ensures AllPositive(Listed(A, g))
  {
  }
}
