/** What limiting code lengths costs. */
module LimitCost {
  import opened Arith
  import opened Bits
  import opened Huffman
  import opened MinRedundancy
  import opened CanonicalCode
  import opened HuffmanTable
  import Limit = LengthLimit

  // ----- positions in a vector of lengths that is sorted, longest first

  ghost predicate Descending(l: seq<nat>) {
    (forall i, j :: 0 <= i < j < |l| ==> l[j] <= l[i]) && forall i :: 0 <= i < |l| ==> 1 <= l[i] <= 32
  }

  /** Entry k is at most i exactly if it is among the last c[1] + ... + c[i]. */
  lemma Position(l: seq<nat>, c: seq<int>, i: nat, k: nat)
    requires Descending(l) && Counts(c, l) && i <= 32 && k < |l|
    ensures l[k] <= i <==> k >= |l| - Limit.Total(c, i)
  {
    if l[k] <= i { CountUpTo(l, c, i, 0, k); } else { CountUpTo(l, c, i, k + 1, |l|); }
  }

  lemma TotalBounds(l: seq<nat>, c: seq<int>, i: nat)
    requires Descending(l) && Counts(c, l) && i <= 32
    ensures 0 <= Limit.Total(c, i) <= |l|
  {
    CountRange(l, c, i, |l|);
    BelowBound(l, i, |l|);
  }

  lemma {:induction false} BelowBound(l: seq<nat>, i: nat, n: nat)
    requires n <= |l|
    ensures Below(l, i, n) <= n
  {
    if n > 0 { BelowBound(l, i, n - 1); }
  }

  /** Kraft's sum over the last entries: whole levels below i and x codes of level i. */
  lemma {:induction false} SuffixKraft(l: seq<nat>, c: seq<int>, m: nat, i: nat, x: nat)
    requires Descending(l) && Counts(c, l) && 1 <= i <= m <= 32 && x <= c[i]
    ensures 0 <= |l| - Limit.Total(c, i - 1) - x <= |l|
    ensures var b := |l| - Limit.Total(c, i - 1) - x;
            Bounded(l[b..], m) && Kraft(l[b..], m) == Limit.Units(c, i - 1, m) + x * Pow2(m - i)
    decreases i, x
  {
    hide *;
    LevelCount(l, c, i);
    SuffixAt(l, c, i, x);
    var b: nat := |l| - Limit.Total(c, i - 1) - x;
    if x > 0 {
      SuffixKraft(l, c, m, i, x - 1);
      assert l[b..][1..] == l[b + 1..];
      KraftHead(l[b..], m, i);
      DistributeRight(x - 1, 1, Pow2(m - i));
    } else if i == 1 {
      NoTotal(c, m);
      assert l[b..] == [];
    } else {
      LevelTotal(c, i - 1, m);
      LevelCount(l, c, i - 1);
      SuffixKraft(l, c, m, i - 1, c[i - 1]);
    }
  }

  /** Where the last x codes of level i begin, and that the first of them has that level. */
  lemma SuffixAt(l: seq<nat>, c: seq<int>, i: nat, x: nat)
    requires Descending(l) && Counts(c, l) && 1 <= i <= 32 && x <= c[i]
    ensures 0 <= |l| - Limit.Total(c, i - 1) - x <= |l|
    ensures x > 0 ==> |l| - Limit.Total(c, i - 1) - x < |l| && l[|l| - Limit.Total(c, i - 1) - x] == i
  {
    TotalBounds(l, c, i);
    TotalBounds(l, c, i - 1);
    LevelTotal(c, i, 32);
    if x > 0 {
      var b: nat := |l| - Limit.Total(c, i - 1) - x;
      Position(l, c, i, b);
      Position(l, c, i - 1, b);
    }
  }

  lemma LevelTotal(c: seq<int>, i: nat, m: nat)
    requires |c| == 33 && 1 <= i <= m <= 32
    ensures Limit.Total(c, i) == Limit.Total(c, i - 1) + c[i]
    ensures Limit.Units(c, i, m) == Limit.Units(c, i - 1, m) + c[i] * Pow2(m - i)
  {
  }

  lemma LevelCount(l: seq<nat>, c: seq<int>, i: nat)
    requires Counts(c, l) && i <= 32
    ensures |c| == 33 && c[i] >= 0
  {
  }

  lemma NoTotal(c: seq<int>, m: nat)
    requires |c| == 33
    ensures Limit.Total(c, 0) == 0 && Limit.Units(c, 0, m) == 0 && Bounded([], m) && Kraft([], m) == 0
  {
  }

  lemma KraftHead(s: seq<nat>, m: nat, x: nat)
    requires |s| > 0 && s[0] == x <= m && Bounded(s[1..], m)
    ensures Bounded(s, m) && Kraft(s, m) == Pow2(m - x) + Kraft(s[1..], m)
  {
    forall i | 0 <= i < |s| ensures s[i] <= m { if i > 0 { assert s[i] == s[1..][i - 1]; } }
  }

  // ----- which codes have become longer

  /** The code space of the codes that are longer in L than in l, in units of 2^-15. */
  ghost function Raised(l: seq<nat>, L: seq<nat>): nat
    requires |l| == |L|
  {
    if l == [] then 0
    else (if L[0] > l[0] && l[0] <= 15 then Pow2(15 - l[0]) else 0) + Raised(l[1..], L[1..])
  }

  /** They are some of the codes from a up to before b. */
  lemma {:induction false} RaisedIn(l: seq<nat>, L: seq<nat>, a: nat, b: nat)
    requires |l| == |L| && a <= b <= |l| && Bounded(l[a..b], 15)
    requires forall k :: 0 <= k < |l| && !(a <= k < b) ==> L[k] <= l[k]
    ensures Raised(l, L) <= Kraft(l[a..b], 15)
    decreases |l|
  {
    if l != [] {
      var l', L' := l[1..], L[1..];
      if a > 0 {
        assert l'[a - 1..b - 1] == l[a..b];
        RaisedIn(l', L', a - 1, b - 1);
      } else if b > 0 {
        assert l'[0..b - 1] == l[0..b][1..];
        assert l[0..b][0] == l[0];
        RaisedIn(l', L', 0, b - 1);
      } else {
        assert l'[0..0] == l[0..0];
        RaisedIn(l', L', 0, 0);
      }
    }
  }

  /** The codes that limiting e makes longer take up at most 2n units. */
  lemma RaisedAtMost(l: seq<nat>, L: seq<nat>, c: seq<int>, e: seq<int>, i: nat)
    requires Descending(l) && Counts(c, l) && Limit.LimitedFrom(c, e, 15, i) && Limit.NonNegative(e) && |L| == |l|
    requires Limit.Total(e, 15) == |l| && forall k: nat :: k < |l| ==> L[k] == LengthAt(e, |l|, k, 16)
    ensures Raised(l, L) <= 2 * |l|
  {
    hide *;
    LimitedIs(c, e, i);
    LevelCount(l, c, 14);
    TotalBounds(l, c, 14);
    SuffixKraft(l, c, 15, 14, c[14]);
    SuffixKraft(l, c, 15, i, e[i]);
    LevelTotal(c, 14, 15);
    LevelTotal(e, i, 15);
    SamePrefix(c, e, i, 15);
    var a: nat := |l| - Limit.Total(c, 14);
    var b: nat := |l| - Limit.Total(e, i);
    Order(l, c, e, i);
    forall k: nat | k < |l| && !(a <= k < b) ensures L[k] <= l[k] { Kept(l, L, c, e, i, k); }
    assert l[a..] == l[a..b] + l[b..];
    KraftAppendBack(l[a..b], l[b..], 15);
    RaisedIn(l, L, a, b);
  }

  lemma LimitedIs(c: seq<int>, e: seq<int>, i: nat)
    requires Limit.LimitedFrom(c, e, 15, i)
    ensures |c| == |e| == 33 && 1 <= i < 15 && (forall j :: 1 <= j < i ==> e[j] == c[j]) && 0 <= e[i] <= c[i]
    ensures Limit.Units(c, 14, 15) <= Limit.Units(e, i, 15) + 2 * Limit.Total(e, 15)
  {
  }

  lemma KraftAppendBack(s: seq<nat>, t: seq<nat>, m: nat)
    requires Bounded(s + t, m)
    ensures Bounded(s, m) && Bounded(t, m) && Kraft(s + t, m) == Kraft(s, m) + Kraft(t, m)
  {
    forall i | 0 <= i < |s| ensures s[i] <= m { assert (s + t)[i] == s[i]; }
    forall i | 0 <= i < |t| ensures t[i] <= m { assert (s + t)[|s| + i] == t[i]; }
    KraftAppend(s, t, m);
  }

  lemma {:induction false} SamePrefix(c: seq<int>, e: seq<int>, i: nat, m: nat)
    requires |c| == |e| == 33 && 1 <= i <= m <= 32 && forall j :: 1 <= j < i ==> e[j] == c[j]
    ensures Limit.Total(e, i - 1) == Limit.Total(c, i - 1) && Limit.Units(e, i - 1, m) == Limit.Units(c, i - 1, m)
    decreases i
  {
    if i > 1 { SamePrefix(c, e, i - 1, m); }
  }

  lemma Order(l: seq<nat>, c: seq<int>, e: seq<int>, i: nat)
    requires Counts(c, l) && |e| == 33 && 1 <= i < 15 && (forall j :: 1 <= j < i ==> e[j] == c[j]) && 0 <= e[i] <= c[i]
    ensures Limit.Total(e, i) <= Limit.Total(c, i) <= Limit.Total(c, 14)
  {
    SamePrefix(c, e, i, 15);
    Limit.TotalMono(c, i, 14);
  }

  /** The length handed out to the k-th symbol is at most j exactly if it is among the last e[1] + ... + e[j]. */
  lemma {:induction false} HandedPosition(e: seq<int>, n: nat, k: nat, i: nat, j: nat)
    requires |e| == 33 && Limit.NonNegative(e) && 1 <= j < i <= 33 && k < n
    ensures LengthAt(e, n, k, i) <= j <==> k >= n - Limit.Total(e, j)
    decreases i
  {
    Limit.TotalMono(e, j, i - 1);
    if k >= n - Limit.Total(e, i - 1) && j < i - 1 { HandedPosition(e, n, k, i - 1, j); }
  }

  lemma LengthBounds(l: seq<nat>, k: nat)
    requires Descending(l) && k < |l|
    ensures 1 <= l[k] <= 32
  {
  }

  /** A code shorter than i, or one of the e[i] last ones of length i, or one longer than 14, has not become longer. */
  lemma Kept(l: seq<nat>, L: seq<nat>, c: seq<int>, e: seq<int>, i: nat, k: nat)
    requires Descending(l) && Counts(c, l) && |e| == 33 && Limit.NonNegative(e) && |L| == |l| && k < |l|
    requires 1 <= i < 15 && (forall j :: 1 <= j < i ==> e[j] == c[j]) && 0 <= e[i] <= c[i]
    requires Limit.Total(e, 15) == |l| && L[k] == LengthAt(e, |l|, k, 16)
    requires k < |l| - Limit.Total(c, 14) || k >= |l| - Limit.Total(e, i)
    ensures L[k] <= l[k]
  {
    LengthBounds(l, k);
    hide *;
    LevelCount(l, c, i);
    HandedPosition(e, |l|, k, 16, 15);
    Position(l, c, 14, k);
    if k >= |l| - Limit.Total(e, i) {
      HandedPosition(e, |l|, k, 16, i);
      Order(l, c, e, i);
      Position(l, c, i, k);
      var j := l[k];
      if j < i {
        Position(l, c, j, k);
        SamePrefix(c, e, j + 1, 15);
        HandedPosition(e, |l|, k, 16, j);
      }
    }
  }

  // ----- what they cost

  /** A code of length x that becomes one of 15: the loss is small because its symbol is light. */
  lemma OneRaised(x: nat)
    requires 1 <= x <= 14
    ensures 560 * (15 - x) <= Fib(x + 1) * Pow2(15 - x)
  {
    assert Fib(7) == 13 && Fib(8) == 21 && Fib(9) == 34 && Fib(10) == 55;
    assert Fib(11) == 89 && Fib(12) == 144 && Fib(13) == 233 && Fib(14) == 377 && Fib(15) == 610;
    assert Pow2(4) == 16 && Pow2(8) == 256 && Pow2(12) == 4096;
  }

  lemma OneLoss(x: nat, y: nat, w: nat, s: nat)
    requires 1 <= x < y <= 15 && Fib(x + 1) * w <= s
    ensures 560 * (w * y) <= 560 * (w * x) + s * Pow2(15 - x)
  {
    OneRaised(x);
    hide *;
    LossStep(y - x, 15 - x, w, Fib(x + 1), Pow2(15 - x), s);
    Distribute(w, x, y - x);
  }

  lemma LossStep(d: nat, e: nat, w: nat, f: nat, p: nat, s: nat)
    requires d <= e && 560 * e <= f * p && f * w <= s
    ensures 560 * (w * d) <= s * p
  {
    MulMono(d, e, w);
    MulMono(560 * e, f * p, w);
    MulMono(f * w, s, p);
    MulAssoc(f, p, w);
    MulAssoc(f, w, p);
    assert p * w == w * p;
    assert w * d == d * w && 560 * e * w == 560 * (e * w);
  }

  /** In units of 1/560 bit: the lengths L cost at most as much more than l as the raised codes take up space. */
  lemma {:induction false} RaisedCost(w: seq<nat>, l: seq<nat>, L: seq<nat>, s: nat)
    requires |w| == |l| == |L| && forall k :: 0 <= k < |l| ==> 1 <= l[k] && L[k] <= 15
    requires forall k :: 0 <= k < |w| ==> Fib(l[k] + 1) * w[k] <= s
    ensures 560 * Cost(w, L) <= 560 * Cost(w, l) + s * Raised(l, L)
  {
    if w != [] {
      RaisedCost(w[1..], l[1..], L[1..], s);
      hide Fib;
      RaisedHead(w, l, L, s);
    }
  }

  lemma RaisedHead(w: seq<nat>, l: seq<nat>, L: seq<nat>, s: nat)
    requires |w| == |l| == |L| > 0 && 1 <= l[0] && L[0] <= 15 && Fib(l[0] + 1) * w[0] <= s
    requires 560 * Cost(w[1..], L[1..]) <= 560 * Cost(w[1..], l[1..]) + s * Raised(l[1..], L[1..])
    ensures 560 * Cost(w, L) <= 560 * Cost(w, l) + s * Raised(l, L)
  {
    hide *;
    CostHead(w, l);
    CostHead(w, L);
    var p := if L[0] > l[0] then Pow2(15 - l[0]) else 0;
    RaisedIs(l, L, p);
    if L[0] > l[0] { OneLoss(l[0], L[0], w[0], s); } else { MulMono(L[0], l[0], w[0]); }
    Distribute(s, p, Raised(l[1..], L[1..]));
  }

  lemma RaisedIs(l: seq<nat>, L: seq<nat>, p: nat)
    requires |l| == |L| > 0 && L[0] <= 15 && p == if L[0] > l[0] then Pow2(15 - l[0]) else 0
    ensures Raised(l, L) == p + Raised(l[1..], L[1..])
  {
    hide Pow2;
  }

  lemma CostHead(w: seq<nat>, l: seq<nat>)
    requires |w| == |l| > 0
    ensures Cost(w, l) == w[0] * l[0] + Cost(w[1..], l[1..])
  {
  }

  /** Limited lengths cost at most 2n/560 bits per symbol more than the best ones. */
  lemma LimitedIsNear(w: seq<nat>, l: seq<nat>, L: seq<nat>, e: seq<int>)
    requires |w| == |l| == |L| >= 2 && Descending(l) && WeightBounded(w, l)
    requires Source(e, l, 15) && Histogram(e, l, 15) && forall k: nat :: k < |l| ==> L[k] == LengthAt(e, |l|, k, 16)
    ensures 560 * Cost(w, L) <= 560 * Cost(w, l) + 2 * |l| * Sum(w)
  {
    var c, i: nat :| Counts(c, l) && Limit.LimitedFrom(c, e, 15, i);
    HistogramFacts(e, l, 15);
    assert Limit.Total(e, 15) == |l|;
    WeightsAre(w, l);
    hide *;
    RaisedAtMost(l, L, c, e, i);
    forall k: nat | k < |l| ensures 1 <= l[k] && L[k] <= 15 {
      LengthBounds(l, k);
      HandedPosition(e, |l|, k, 16, 15);
    }
    RaisedCost(w, l, L, Sum(w));
    MulMono(Raised(l, L), 2 * |l|, Sum(w));
  }

  lemma WeightsAre(w: seq<nat>, l: seq<nat>)
    requires WeightBounded(w, l)
    ensures |l| == |w| && forall k :: 0 <= k < |w| ==> Fib(l[k] + 1) * w[k] <= Sum(w)
    ensures Sum(w) >= 0
  {
    SumNonNegative(w);
  }
}
