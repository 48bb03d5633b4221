/** Huffman's construction is optimal. */
module Huffman {
  // What a minimum-redundancy code is, and that the construction finds one.
  // The cost of a vector of code lengths, Kraft's inequality, the cost of the construction, and the proof that no
  // length vector that satisfies the inequality costs less.

  import opened Arith

  predicate Ascending(w: seq<nat>) {
    forall i, j :: 0 <= i < j < |w| ==> w[i] <= w[j]
  }

  /** The weighted length: the sum of w[i] * l[i]. */
  function Cost(w: seq<nat>, l: seq<nat>): int
    requires |w| == |l|
  {
    if w == [] then 0 else w[0] * l[0] + Cost(w[1..], l[1..])
  }

  predicate Bounded(l: seq<nat>, m: nat) {
    forall i :: 0 <= i < |l| ==> l[i] <= m
  }

  /** Kraft's sum, in units of 2^-m. */
  function Kraft(l: seq<nat>, m: nat): nat
    requires Bounded(l, m)
  {
    if l == [] then 0 else Pow2(m - l[0]) + Kraft(l[1..], m)
  }

  /** Kraft's inequality for the lengths l, none above m. */
  predicate Decodable(l: seq<nat>, m: nat) {
    Bounded(l, m) && Kraft(l, m) <= Pow2(m)
  }

  // ----- Huffman's construction, on ascending weights

  function Rank(w: seq<nat>, x: nat): (k: nat)
    ensures k <= |w|
    ensures forall i :: 0 <= i < k ==> w[i] < x
    ensures k < |w| ==> x <= w[k]
  {
    if w == [] || x <= w[0] then 0 else 1 + Rank(w[1..], x)
  }

  function Insert(s: seq<nat>, k: nat, x: nat): (r: seq<nat>)
    requires k <= |s|
    ensures |r| == |s| + 1
  {
    s[..k] + [x] + s[k..]
  }

  function InsertSorted(w: seq<nat>, x: nat): (r: seq<nat>)
    requires Ascending(w)
    ensures Ascending(r) && |r| == |w| + 1
    ensures multiset(r) == multiset(w) + multiset{x}
  {
    var k := Rank(w, x);
    InsertKeeps(w, k, x);
    Insert(w, k, x)
  }

  lemma InsertKeeps(w: seq<nat>, k: nat, x: nat)
    requires k <= |w|
    ensures multiset(Insert(w, k, x)) == multiset(w) + multiset{x}
  {
    assert w == w[..k] + w[k..];
  }

  function Sort(s: seq<nat>): (r: seq<nat>)
    ensures Ascending(r) && multiset(r) == multiset(s)
  {
    if s == [] then []
    else assert s == [s[0]] + s[1..]; InsertSorted(Sort(s[1..]), s[0])
  }

  /** The cost of the code that Huffman's construction finds: the sum of the weights of its inner nodes. */
  function OptimalCost(w: seq<nat>): nat
    requires Ascending(w)
    decreases |w|
  {
    if |w| <= 1 then 0
    else w[0] + w[1] + OptimalCost(InsertSorted(w[2..], w[0] + w[1]))
  }

  // ----- how Cost and Kraft change with the lengths

  lemma {:induction false} CostAppend(w: seq<nat>, l: seq<nat>, v: seq<nat>, k: seq<nat>)
    requires |w| == |l| && |v| == |k|
    ensures Cost(w + v, l + k) == Cost(w, l) + Cost(v, k)
  {
    if w == [] {
      assert w + v == v && l + k == k;
    } else {
      assert (w + v)[1..] == w[1..] + v && (l + k)[1..] == l[1..] + k;
      CostAppend(w[1..], l[1..], v, k);
    }
  }

  lemma {:induction false} KraftAppend(l: seq<nat>, k: seq<nat>, m: nat)
    requires Bounded(l, m) && Bounded(k, m)
    ensures Bounded(l + k, m) && Kraft(l + k, m) == Kraft(l, m) + Kraft(k, m)
  {
    if l == [] {
      assert l + k == k;
    } else {
      assert (l + k)[1..] == l[1..] + k;
      KraftAppend(l[1..], k, m);
    }
  }

  lemma CostInsert(w: seq<nat>, l: seq<nat>, k: nat, x: nat, y: nat)
    requires |w| == |l| && k <= |w|
    ensures Cost(Insert(w, k, x), Insert(l, k, y)) == Cost(w, l) + x * y
  {
    assert Insert(w, k, x) == w[..k] + ([x] + w[k..]) && Insert(l, k, y) == l[..k] + ([y] + l[k..]);
    CostAppend(w[..k], l[..k], [x] + w[k..], [y] + l[k..]);
    CostAppend(w[..k], l[..k], w[k..], l[k..]);
    assert w == w[..k] + w[k..] && l == l[..k] + l[k..];
  }

  lemma KraftInsert(l: seq<nat>, k: nat, y: nat, m: nat)
    requires Bounded(l, m) && y <= m && k <= |l|
    ensures Bounded(Insert(l, k, y), m) && Kraft(Insert(l, k, y), m) == Kraft(l, m) + Pow2(m - y)
  {
    assert Insert(l, k, y) == l[..k] + ([y] + l[k..]);
    assert Bounded(l[..k], m) && Bounded(l[k..], m) && Bounded([y] + l[k..], m);
    KraftAppend(l[..k], [y] + l[k..], m);
    KraftAppend(l[..k], l[k..], m);
    assert l == l[..k] + l[k..];
  }

  lemma CostUpdate(w: seq<nat>, l: seq<nat>, i: nat, y: nat)
    requires |w| == |l| && i < |w|
    ensures Cost(w, l[i := y]) == Cost(w, l) + w[i] * (y - l[i])
  {
    var v, k := w[..i] + w[i + 1..], l[..i] + l[i + 1..];
    assert w == Insert(v, i, w[i]) && l == Insert(k, i, l[i]) && l[i := y] == Insert(k, i, y);
    CostInsert(v, k, i, w[i], l[i]);
    CostInsert(v, k, i, w[i], y);
    assert w[i] * y - w[i] * l[i] == w[i] * (y - l[i]);
  }

  lemma KraftUpdate(l: seq<nat>, i: nat, y: nat, m: nat)
    requires Bounded(l, m) && y <= m && i < |l|
    ensures Bounded(l[i := y], m) && Kraft(l[i := y], m) == Kraft(l, m) - Pow2(m - l[i]) + Pow2(m - y)
  {
    var k := l[..i] + l[i + 1..];
    assert Bounded(k, m) by {
      forall a | 0 <= a < |k| ensures k[a] <= m { assert k[a] == l[if a < i then a else a + 1]; }
    }
    assert l == Insert(k, i, l[i]) && l[i := y] == Insert(k, i, y);
    KraftInsert(k, i, l[i], m);
    KraftInsert(k, i, y, m);
  }

  /** Kraft's sum in a coarser unit. */
  lemma {:induction false} KraftRescale(l: seq<nat>, m: nat, t: nat)
    requires Bounded(l, m) && m <= t
    ensures Bounded(l, t) && Kraft(l, t) == Pow2(t - m) * Kraft(l, m)
  {
    assert Bounded(l, t);
    if l != [] {
      KraftRescale(l[1..], m, t);
      Pow2Add(t - m, m - l[0]);
      assert t - m + (m - l[0]) == t - l[0];
      Distribute(Pow2(t - m), Pow2(m - l[0]), Kraft(l[1..], m));
    }
  }

  // ----- no code costs less than OptimalCost

  function MaxAt(l: seq<nat>, from: nat): (k: nat)
    requires from < |l|
    ensures from <= k < |l|
    ensures forall i :: from <= i < |l| ==> l[i] <= l[k]
    decreases |l| - from
  {
    if from + 1 == |l| then from
    else var k := MaxAt(l, from + 1); if l[from] >= l[k] then from else k
  }

  /** Giving the lighter weight the greater length does not cost more. */
  lemma Exchange(w: seq<nat>, l: seq<nat>, i: nat, j: nat, m: nat) returns (r: seq<nat>)
    requires Ascending(w) && |w| == |l| && i <= j < |w| && l[i] <= l[j] && Decodable(l, m)
    ensures |r| == |l| && r[i] == l[j] && r[j] == l[i]
    ensures forall a :: 0 <= a < |l| && a != i && a != j ==> r[a] == l[a]
    ensures Decodable(r, m) && Cost(w, r) <= Cost(w, l)
  {
    var s := l[i := l[j]];
    r := s[j := l[i]];
    CostUpdate(w, l, i, l[j]);
    CostUpdate(w, s, j, l[i]);
    KraftUpdate(l, i, l[j], m);
    KraftUpdate(s, j, l[i], m);
    SwapGain(w[i], w[j], l[i], l[j]);
  }

  lemma SwapGain(a: nat, b: nat, x: nat, y: nat)
    requires a <= b && x <= y
    ensures a * (y - x) + b * (x - y) <= 0
  {
    var up: nat := y - x;
    MulMono(a, b, up);
    assert b * (x - y) == -(b * up);
  }

  /** A code in which the two lightest weights have the two greatest lengths costs no less than one
      in which those two lengths are also equal. */
  lemma Level(l: seq<nat>, m: nat)
    requires |l| >= 2 && Decodable(l, m)
    requires l[1] <= l[0] && forall i :: 1 <= i < |l| ==> l[i] <= l[1]
    ensures l[1] >= 1 && Decodable(l[0 := l[1]], l[1])
  {
    var t, p := l[1..], l[1];
    assert Bounded(t, p);
    KraftRescale(t, p, m);
    Pow2Add(m - p, p);
    assert m - p + p == m;
    BelowByFactor(Kraft(t, p), Pow2(p), Pow2(m - p));
    assert p != 0;
    assert l[0 := p][1..] == t;
  }

  lemma PairSums(a: nat, b: nat, p: nat)
    requires p >= 1
    ensures Cost([a, b], [p, p]) == (a + b) * (p - 1) + a + b
    ensures Bounded([p, p], p) && Kraft([p, p], p) == Pow2(1)
  {
    assert [a, b][1..] == [b] && [p, p][1..] == [p];
    assert Cost([b], [p]) == b * p;
    assert Kraft([p], p) == 1;
    Distribute(p, a, b);
  }

  /** Two leaves of equal length become one leaf that is one bit shorter: Kraft's sum stays, the cost
      goes down by their weights. */
  lemma MergeKraft(k: seq<nat>, at: nat, p: nat)
    requires p >= 1 && at <= |k| && Decodable([p, p] + k, p)
    ensures Decodable(Insert(k, at, p - 1), p)
  {
    forall i | 0 <= i < |k| ensures k[i] <= p { assert k[i] == ([p, p] + k)[i + 2]; }
    PairSums(0, 0, p);
    KraftAppend([p, p], k, p);
    KraftInsert(k, at, p - 1, p);
  }

  lemma MergeCost(a: nat, b: nat, v: seq<nat>, k: seq<nat>, at: nat, p: nat)
    requires p >= 1 && |v| == |k| && at <= |k|
    ensures Cost([a, b] + v, [p, p] + k) == Cost(Insert(v, at, a + b), Insert(k, at, p - 1)) + a + b
  {
    var ab, pp := [a, b], [p, p];
    CostAppend(ab, pp, v, k);
    PairSums(a, b, p);
    CostInsert(v, k, at, a + b, p - 1);
  }

  /** Shortening the first length to the second costs nothing. */
  lemma Shorten(w: seq<nat>, b: seq<nat>)
    requires |w| == |b| >= 2 && b[1] <= b[0]
    ensures Cost(w, b[0 := b[1]]) <= Cost(w, b)
  {
    CostUpdate(w, b, 0, b[1]);
    MulMono(b[1] as int - b[0], 0, w[0]);
  }

  /** The two greatest lengths can be brought to the two lightest weights and made equal at no cost. */
  lemma Normalise(w: seq<nat>, l: seq<nat>, m: nat) returns (c: seq<nat>)
    requires Ascending(w) && |w| == |l| >= 2 && Decodable(l, m)
    ensures |c| == |w| && c[0] == c[1] >= 1 && Decodable(c, c[1]) && Cost(w, c) <= Cost(w, l)
  {
    var i := MaxAt(l, 0);
    var a := Exchange(w, l, 0, i, m);
    var j := MaxAt(a, 1);
    assert a[j] <= a[0];
    var b := Exchange(w, a, 1, j, m);
    Level(b, m);
    Shorten(w, b);
    c := b[0 := b[1]];
  }

  /** A code of w yields a code of the weights after one merge, cheaper by the weight of the new node. */
  lemma Descend(w: seq<nat>, l: seq<nat>, m: nat) returns (d: seq<nat>, p: nat)
    requires Ascending(w) && |w| == |l| >= 2 && Decodable(l, m)
    ensures |d| == |w| - 1 && Decodable(d, p)
    ensures Cost(w, l) >= Cost(InsertSorted(w[2..], w[0] + w[1]), d) + w[0] + w[1]
  {
    var c := Normalise(w, l, m);
    p := c[1];
    var v, k := w[2..], c[2..];
    var at := Rank(v, w[0] + w[1]);
    assert c == [p, p] + k;
    MergeKraft(k, at, p);
    assert w == [w[0], w[1]] + v;
    MergeCost(w[0], w[1], v, k, at, p);
    d := Insert(k, at, p - 1);
  }

  /** Every code of the weights w costs at least OptimalCost(w). */
  lemma {:induction false} NoCodeIsCheaper(w: seq<nat>, l: seq<nat>, m: nat)
    requires Ascending(w) && |w| == |l| && Decodable(l, m)
    ensures Cost(w, l) >= OptimalCost(w)
    decreases |w|
  {
    if |w| >= 2 {
      var d, p := Descend(w, l, m);
      NoCodeIsCheaper(InsertSorted(w[2..], w[0] + w[1]), d, p);
    } else {
      CostNonNegative(w, l);
    }
  }

  lemma {:induction false} CostNonNegative(w: seq<nat>, l: seq<nat>)
    requires |w| == |l|
    ensures Cost(w, l) >= 0
  {
    if w != [] { CostNonNegative(w[1..], l[1..]); }
  }

  // ----- the construction on unordered weights

  lemma SameMembers(s: seq<nat>, t: seq<nat>, x: nat)
    requires multiset(s) == multiset(t) && x in s
    ensures x in t
  {
    assert x in multiset(t);
  }

  lemma SplitHead(a: seq<nat>)
    requires a != []
    ensures multiset(a) == multiset{a[0]} + multiset(a[1..])
  {
    assert a == [a[0]] + a[1..];
  }

  lemma SameTail(a: seq<nat>, b: seq<nat>)
    requires a != [] && b != [] && a[0] == b[0] && multiset(a) == multiset(b)
    ensures multiset(a[1..]) == multiset(b[1..])
  {
    SplitHead(a);
    SplitHead(b);
    var m := multiset{a[0]};
    assert multiset(a[1..]) == multiset(a) - m;
    assert multiset(b[1..]) == multiset(b) - m;
  }

  lemma SameHead(a: seq<nat>, b: seq<nat>)
    requires Ascending(a) && Ascending(b) && multiset(a) == multiset(b) && a != []
    ensures b != [] && a[0] == b[0]
  {
    SameMembers(a, b, a[0]);
    SameMembers(b, a, b[0]);
  }

  lemma {:induction false} SortedIsUnique(a: seq<nat>, b: seq<nat>)
    requires Ascending(a) && Ascending(b) && multiset(a) == multiset(b)
    ensures a == b
  {
    if a != [] {
      SameHead(a, b);
      SameTail(a, b);
      SortedIsUnique(a[1..], b[1..]);
      assert a == [a[0]] + a[1..] && b == [b[0]] + b[1..];
    }
  }

  lemma SortPrefix(s: seq<nat>, x: nat, y: nat, t: seq<nat>)
    requires x <= y && multiset(s) == multiset{x, y} + multiset(t)
    requires forall r :: r in t ==> y <= r
    ensures Sort(s) == [x, y] + Sort(t)
  {
    var u := Sort(t);
    forall i | 0 <= i < |u| ensures y <= u[i] { SameMembers(u, t, u[i]); }
    var a := [x, y] + u;
    assert Ascending(a);
    assert multiset(a) == multiset{x, y} + multiset(u);
    SortedIsUnique(Sort(s), a);
  }

  lemma SortSnoc(t: seq<nat>, x: nat)
    ensures Sort(t + [x]) == InsertSorted(Sort(t), x)
  {
    SortedIsUnique(Sort(t + [x]), InsertSorted(Sort(t), x));
  }

  lemma SortedMerge(x: nat, y: nat, u: seq<nat>, a: seq<nat>)
    requires Ascending(a) && a == [x, y] + u
    ensures Ascending(u) && OptimalCost(a) == x + y + OptimalCost(InsertSorted(u, x + y))
  {
    hide Rank, InsertSorted, Insert;
    assert a[2..] == u;
  }

  /** Merging the two lightest weights is a step of Huffman's construction. */
  lemma MergeOrdered(s: seq<nat>, x: nat, y: nat, t: seq<nat>)
    requires x <= y && multiset(s) == multiset{x, y} + multiset(t)
    requires forall r :: r in t ==> y <= r
    ensures OptimalCost(Sort(s)) == x + y + OptimalCost(Sort(t + [x + y]))
  {
    hide *;
    assert Sort(s) == [x, y] + Sort(t) by { SortPrefix(s, x, y, t); }
    SortedMerge(x, y, Sort(t), Sort(s));
    assert Sort(t + [x + y]) == InsertSorted(Sort(t), x + y) by { SortSnoc(t, x + y); }
  }

  /** The same for two weights in either order, neither above any other. */
  lemma MergeStep(s: seq<nat>, x: nat, y: nat, t: seq<nat>)
    requires multiset(s) == multiset{x, y} + multiset(t)
    requires forall r :: r in t ==> x <= r && y <= r
    ensures OptimalCost(Sort(s)) == x + y + OptimalCost(Sort(t + [x + y]))
  {
    hide *;
    if x <= y {
      MergeOrdered(s, x, y, t);
    } else {
      assert multiset{x, y} == multiset{y, x};
      assert x + y == y + x;
      MergeOrdered(s, y, x, t);
    }
  }
}
