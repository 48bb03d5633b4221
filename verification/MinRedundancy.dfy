/** The in-place minimum-redundancy algorithm of Moffat and Katajainen. */
module MinRedundancy {
  // The three phases reuse one array for weights, parent indices, inner-node depths and code lengths.
  // The ghost sequences name what the array no longer holds:
  //   w     the weights it was called with, ascending;
  //   W     W[k] is the weight of inner node k;
  //   R     R[k] is how many inner nodes have a parent among the inner nodes below k
  //         (so 2 * k - R[k] is how many leaves have);
  //   D, l  the depths of the inner nodes and of the leaves.

  import opened Arith
  import opened Huffman

  /** tdefl_sym_freq: a 16-bit key (a count, later a code length) and the symbol it belongs to. */
  datatype SymFreq = SymFreq(key: nat, sym: nat)

  const MAX_HUFF_SYMBOLS := 288

  /** The cast to mz_uint16. */
  function U16(x: nat): (r: nat)
    ensures r < 0x1_0000
    ensures x < 0x1_0000 ==> r == x
  {
    x % 0x1_0000
  }

  // ----- the forest that the first phase builds

  /** Each inner node takes two of the oldest unused inner nodes and lightest unused leaves. */
  ghost predicate Shape(n: nat, R: seq<nat>) {
    && |R| >= 1 && R[0] == 0
    && forall k :: 0 <= k < |R| - 1 ==> TakesTwo(n, R, k)
  }

  ghost predicate TakesTwo(n: nat, R: seq<nat>, k: nat)
    requires k + 1 < |R|
  {
    R[k] <= R[k + 1] <= R[k] + 2 && R[k + 1] <= k && 2 * (k + 1) - R[k + 1] <= n
  }

  lemma {:induction false} ShapeBounds(n: nat, R: seq<nat>, k: nat)
    requires Shape(n, R) && k < |R|
    ensures R[k] <= k && 0 <= 2 * k - R[k] <= n
    ensures k > 0 ==> R[k] < k
    ensures k + 1 < |R| ==> R[k] <= R[k + 1] <= k && 2 * k - R[k] <= 2 * (k + 1) - R[k + 1] <= n
  {
    if k > 0 {
      ShapeBounds(n, R, k - 1);
      assert TakesTwo(n, R, k - 1);
    }
    if k + 1 < |R| { assert TakesTwo(n, R, k); }
  }

  /** How many leaves have a parent below node k. */
  ghost function Leaves(R: seq<nat>, k: nat): int
    requires k < |R|
  {
    2 * k - R[k]
  }

  ghost function Picked(w: seq<nat>, W: seq<nat>, R: seq<nat>, k: nat): (p: seq<nat>)
    requires Shape(|w|, R) && |R| == |W| + 1 && k < |W|
    ensures |p| == 2
  {
    ShapeBounds(|w|, R, k);
    W[R[k]..R[k + 1]] + w[Leaves(R, k)..Leaves(R, k + 1)]
  }

  ghost function Others(w: seq<nat>, W: seq<nat>, R: seq<nat>, k: nat): seq<nat>
    requires Shape(|w|, R) && |R| == |W| + 1 && k < |W|
  {
    ShapeBounds(|w|, R, k);
    W[R[k + 1]..k] + w[Leaves(R, k + 1)..]
  }

  /** The weights that have no parent before node k is made. */
  ghost function Roots(w: seq<nat>, W: seq<nat>, R: seq<nat>, k: nat): seq<nat>
    requires Shape(|w|, R) && |R| == |W| + 1 && k <= |W|
  {
    ShapeBounds(|w|, R, k);
    W[R[k]..k] + w[Leaves(R, k)..]
  }

  /** Node k joins two weights, neither above any weight that is left. */
  ghost predicate Node(w: seq<nat>, W: seq<nat>, R: seq<nat>, k: nat)
    requires Shape(|w|, R) && |R| == |W| + 1 && k < |W|
  {
    var p := Picked(w, W, R, k);
    && W[k] == p[0] + p[1]
    && forall o :: o in Others(w, W, R, k) ==> p[0] <= o && p[1] <= o
  }

  ghost predicate Plan(w: seq<nat>, W: seq<nat>, R: seq<nat>) {
    && Shape(|w|, R) && |R| == |W| + 1
    && forall k :: 0 <= k < |W| ==> Node(w, W, R, k)
  }

  lemma Regroup(q: seq<nat>, u: seq<nat>, v: seq<nat>, t: seq<nat>)
    ensures multiset((q + u) + (v + t)) == multiset(q + v) + multiset(u + t)
    ensures Sum((q + u) + (v + t)) == Sum(q + v) + Sum(u + t)
  {
    SumAppend(q + u, v + t);
    SumAppend(q, u);
    SumAppend(v, t);
    SumAppend(q, v);
    SumAppend(u, t);
  }

  lemma PairSum(p: seq<nat>)
    requires |p| == 2
    ensures Sum(p) == p[0] + p[1] && multiset(p) == multiset{p[0], p[1]}
  {
    assert p == [p[0], p[1]];
    assert p[1..] == [p[1]];
    assert Sum([p[1]]) == p[1];
  }

  /** The three groups of weights at step k as slices. */
  lemma Slices(w: seq<nat>, W: seq<nat>, R: seq<nat>, k: nat)
    returns (q: seq<nat>, u: seq<nat>, v: seq<nat>, t: seq<nat>)
    requires Shape(|w|, R) && |R| == |W| + 1 && k < |W|
    ensures |q| + R[k] == R[k + 1] && |u| + R[k + 1] == k && |v| + |q| == 2 && |t| + Leaves(R, k + 1) == |w|
    ensures forall x :: (x in q || x in u ==> x in W) && (x in v || x in t ==> x in w)
    ensures Picked(w, W, R, k) == q + v
    ensures Others(w, W, R, k) == u + t
    ensures Roots(w, W, R, k) == (q + u) + (v + t)
    ensures Roots(w, W, R, k + 1) == (u + [W[k]]) + (t + [])
  {
    hide Shape, TakesTwo;
    ShapeBounds(|w|, R, k);
    var a, b, c, d := R[k], R[k + 1], Leaves(R, k), Leaves(R, k + 1);
    q, u, v, t := W[a..b], W[b..k], w[c..d], w[d..];
    assert W[a..k] == q + u;
    assert w[c..] == v + t;
    SliceSnoc(W, b, k);
    assert t + [] == t;
  }

  lemma SliceSnoc(s: seq<nat>, b: nat, k: nat)
    requires b <= k < |s|
    ensures s[b..k + 1] == s[b..k] + [s[k]]
  {
  }

  lemma RootsSplit(w: seq<nat>, W: seq<nat>, R: seq<nat>, k: nat)
    requires Shape(|w|, R) && |R| == |W| + 1 && k < |W|
    ensures var p := Picked(w, W, R, k); var o := Others(w, W, R, k); var r := Roots(w, W, R, k);
            multiset(r) == multiset{p[0], p[1]} + multiset(o) && Sum(r) == p[0] + p[1] + Sum(o)
  {
    hide *;
    var q, u, v, t := Slices(w, W, R, k);
    Regroup(q, u, v, t);
    PairSum(Picked(w, W, R, k));
  }

  lemma RootsNext(w: seq<nat>, W: seq<nat>, R: seq<nat>, k: nat)
    requires Shape(|w|, R) && |R| == |W| + 1 && k < |W|
    ensures var o := Others(w, W, R, k); var r := Roots(w, W, R, k + 1);
            multiset(r) == multiset(o + [W[k]]) && Sum(r) == Sum(o) + W[k]
  {
    assert Sum([W[k]]) == W[k];
    hide *;
    var q, u, v, t := Slices(w, W, R, k);
    Regroup(u, [W[k]], t, []);
    assert [W[k]] + [] == [W[k]];
  }

  lemma NodeFacts(w: seq<nat>, W: seq<nat>, R: seq<nat>, k: nat)
    requires Plan(w, W, R) && k < |W|
    ensures Shape(|w|, R) && |R| == |W| + 1
    ensures var p := Picked(w, W, R, k);
            && W[k] == p[0] + p[1]
            && forall o :: o in Others(w, W, R, k) ==> p[0] <= o && p[1] <= o
  {
    assert Node(w, W, R, k);
  }

  lemma TotalStep(w: seq<nat>, W: seq<nat>, R: seq<nat>, k: nat)
    requires Plan(w, W, R) && k < |W|
    ensures Sum(Roots(w, W, R, k + 1)) == Sum(Roots(w, W, R, k))
  {
    hide *;
    NodeFacts(w, W, R, k);
    RootsSplit(w, W, R, k);
    RootsNext(w, W, R, k);
  }

  /** The total weight of the roots is the total of the weights throughout. */
  lemma {:induction false} TotalStays(w: seq<nat>, W: seq<nat>, R: seq<nat>, k: nat)
    requires Plan(w, W, R) && k <= |W|
    ensures Sum(Roots(w, W, R, k)) == Sum(w)
  {
    hide Sum;
    if k == 0 {
      assert Roots(w, W, R, 0) == w;
    } else {
      TotalStays(w, W, R, k - 1);
      TotalStep(w, W, R, k - 1);
    }
  }

  lemma {:induction false} SumNonNegative(s: seq<nat>)
    ensures Sum(s) >= 0
    ensures forall i :: 0 <= i < |s| ==> s[i] <= Sum(s)
  {
    if s != [] { SumNonNegative(s[1..]); }
  }

  /** Making node k is one step of Huffman's construction. */
  lemma NodeIsHuffmanStep(w: seq<nat>, W: seq<nat>, R: seq<nat>, k: nat)
    requires Plan(w, W, R) && k < |W|
    ensures OptimalCost(Sort(Roots(w, W, R, k))) == W[k] + OptimalCost(Sort(Roots(w, W, R, k + 1)))
  {
    hide *;
    NodeFacts(w, W, R, k);
    RootsSplit(w, W, R, k);
    RootsNext(w, W, R, k);
    var p, o := Picked(w, W, R, k), Others(w, W, R, k);
    MergeStep(Roots(w, W, R, k), p[0], p[1], o);
    SortedIsUnique(Sort(Roots(w, W, R, k + 1)), Sort(o + [W[k]]));
  }

  // ----- the depths that the second and third phases compute

  /** The children of node k are one level below it. */
  ghost predicate Level(R: seq<nat>, D: seq<nat>, l: seq<nat>, k: nat)
    requires Shape(|l|, R) && |R| == |D| + 1 && k < |D|
  {
    forall i :: 0 <= i < 2 ==> Picked(l, D, R, k)[i] == D[k] + 1
  }

  /** D and l are the depths of the inner nodes and of the leaves in the tree of R. */
  ghost predicate Depths(R: seq<nat>, D: seq<nat>, l: seq<nat>) {
    && |l| >= 2 && |D| == |l| - 1 && |R| == |l| && Shape(|l|, R)
    && D[|D| - 1] == 0
    && forall k :: 0 <= k < |D| ==> Level(R, D, l, k)
  }

  lemma CostOf4(q: seq<nat>, u: seq<nat>, v: seq<nat>, t: seq<nat>, q': seq<nat>, u': seq<nat>, v': seq<nat>,
                t': seq<nat>)
    requires |q| == |q'| && |u| == |u'| && |v| == |v'| && |t| == |t'|
    ensures Cost((q + u) + (v + t), (q' + u') + (v' + t')) == Cost(q + v, q' + v') + Cost(u + t, u' + t')
  {
    hide Cost;
    CostAppend(q + u, q' + u', v + t, v' + t');
    CostAppend(q, q', u, u');
    CostAppend(v, v', t, t');
    CostAppend(q, q', v, v');
    CostAppend(u, u', t, t');
  }

  lemma KraftOf4(q: seq<nat>, u: seq<nat>, v: seq<nat>, t: seq<nat>, m: nat)
    requires Bounded(q, m) && Bounded(u, m) && Bounded(v, m) && Bounded(t, m)
    ensures Bounded((q + u) + (v + t), m) && Bounded(q + v, m) && Bounded(u + t, m)
    ensures Kraft((q + u) + (v + t), m) == Kraft(q + v, m) + Kraft(u + t, m)
  {
    hide Kraft, Bounded;
    KraftAppend(q, u, m);
    KraftAppend(v, t, m);
    KraftAppend(q + u, v + t, m);
    KraftAppend(q, v, m);
    KraftAppend(u, t, m);
  }

  lemma LevelCost(p: seq<nat>, p': seq<nat>, W: nat, d: nat)
    requires |p| == |p'| == 2 && p'[0] == p'[1] == d + 1 && W == p[0] + p[1]
    ensures Cost(p, p') == Cost([W], [d]) + W
  {
    CostOfOne(W, d);
    CostOfOne(p[1], d + 1);
    assert p[1..] == [p[1]] && p'[1..] == [d + 1];
    assert Cost(p, p') == p[0] * p'[0] + Cost(p[1..], p'[1..]);
    hide *;
    OneDeeper(p[0], p[1], d);
  }

  lemma CostOfOne(x: nat, d: nat)
    ensures Cost([x], [d]) == x * d
  {
  }

  lemma OneDeeper(x: nat, y: nat, d: nat)
    ensures x * (d + 1) + y * (d + 1) == (x + y) * d + (x + y)
  {
  }

  lemma LevelKraft(p': seq<nat>, d: nat, m: nat)
    requires |p'| == 2 && p'[0] == p'[1] == d + 1 <= m
    ensures Bounded(p', m) && Bounded([d], m) && Kraft(p', m) == Kraft([d], m)
  {
    assert p' == [d + 1, d + 1] && p'[1..] == [d + 1];
    assert Kraft([d + 1], m) == Pow2(m - d - 1);
    assert Kraft([d], m) == Pow2(m - d);
  }

  lemma CostStep(w: seq<nat>, W: seq<nat>, l: seq<nat>, D: seq<nat>, R: seq<nat>, k: nat)
    requires Plan(w, W, R) && Depths(R, D, l) && |w| == |l| && k < |W| == |D|
    ensures |Roots(w, W, R, k)| == |Roots(l, D, R, k)| && |Roots(w, W, R, k + 1)| == |Roots(l, D, R, k + 1)|
    ensures Cost(Roots(w, W, R, k), Roots(l, D, R, k))
         == Cost(Roots(w, W, R, k + 1), Roots(l, D, R, k + 1)) + W[k]
  {
    assert Level(R, D, l, k);
    NodeFacts(w, W, R, k);
    var p, p' := Picked(w, W, R, k), Picked(l, D, R, k);
    LevelCost(p, p', W[k], D[k]);
    hide *;
    var q, u, v, t := Slices(w, W, R, k);
    var q', u', v', t' := Slices(l, D, R, k);
    CostOf4(q, u, v, t, q', u', v', t');
    CostOf4(u, [W[k]], t, [], u', [D[k]], t', []);
    CostAppend([W[k]], [D[k]], [], []);
    assert [W[k]] + [] == [W[k]] && [D[k]] + [] == [D[k]];
  }

  lemma BoundedPart(s: seq<nat>, t: seq<nat>, m: nat)
    requires Bounded(t, m) && forall x :: x in s ==> x in t
    ensures Bounded(s, m)
  {
    forall i | 0 <= i < |s| ensures s[i] <= m { assert s[i] in t; }
  }

  lemma KraftStep(l: seq<nat>, D: seq<nat>, R: seq<nat>, k: nat, m: nat)
    requires Depths(R, D, l) && k < |D| && Bounded(l, m) && Bounded(D, m)
    ensures Bounded(Roots(l, D, R, k), m) && Bounded(Roots(l, D, R, k + 1), m)
    ensures Kraft(Roots(l, D, R, k), m) == Kraft(Roots(l, D, R, k + 1), m)
  {
    assert Level(R, D, l, k);
    var p' := Picked(l, D, R, k);
    var q', u', v', t' := Slices(l, D, R, k);
    ShapeBounds(|l|, R, k);
    BoundedPart(q', D, m);
    BoundedPart(u', D, m);
    BoundedPart(v', l, m);
    BoundedPart(t', l, m);
    assert p'[0] <= m by { assert p'[0] in p'; }
    LevelKraft(p', D[k], m);
    assert Bounded([], m);
    hide *;
    KraftOf4(q', u', v', t', m);
    KraftOf4(u', [D[k]], t', [], m);
    KraftAppend([D[k]], [], m);
    assert [D[k]] + [] == [D[k]];
  }

  lemma LastRoot(w: seq<nat>, W: seq<nat>, R: seq<nat>)
    requires Shape(|w|, R) && |R| == |W| + 1 == |w| >= 2
    ensures Roots(w, W, R, |W|) == [W[|W| - 1]]
    ensures R[|W|] == |W| - 1 && Leaves(R, |W|) == |w|
  {
    ShapeBounds(|w|, R, |W|);
  }

  lemma OneRoot(x: nat)
    ensures Cost([x], [0]) == 0 && OptimalCost(Sort([x])) == 0
  {
    assert Cost([x], [0]) == x * 0 + Cost([], []);
    assert |Sort([x])| == |multiset(Sort([x]))| == 1;
  }

  lemma {:induction false} CostFrom(w: seq<nat>, W: seq<nat>, l: seq<nat>, D: seq<nat>, R: seq<nat>, k: nat)
    requires Plan(w, W, R) && Depths(R, D, l) && |w| == |l| && k <= |W| == |D|
    ensures |Roots(w, W, R, k)| == |Roots(l, D, R, k)|
    ensures Cost(Roots(w, W, R, k), Roots(l, D, R, k)) == OptimalCost(Sort(Roots(w, W, R, k)))
    decreases |W| - k
  {
    if k == |W| {
      assert Shape(|l|, R) && D[|D| - 1] == 0;
      OneRoot(W[k - 1]);
      hide *;
      LastRoot(w, W, R);
      LastRoot(l, D, R);
    } else {
      hide *;
      CostFrom(w, W, l, D, R, k + 1);
      CostStep(w, W, l, D, R, k);
      NodeIsHuffmanStep(w, W, R, k);
    }
  }

  lemma {:induction false} KraftFrom(l: seq<nat>, D: seq<nat>, R: seq<nat>, k: nat, m: nat)
    requires Depths(R, D, l) && k <= |D| && Bounded(l, m) && Bounded(D, m)
    ensures Bounded(Roots(l, D, R, k), m) && Kraft(Roots(l, D, R, k), m) == Pow2(m)
    decreases |D| - k
  {
    if k == |D| {
      LastRoot(l, D, R);
      assert Kraft([0], m) == Pow2(m);
    } else {
      hide *;
      KraftFrom(l, D, R, k + 1, m);
      KraftStep(l, D, R, k, m);
    }
  }

  /** Some node at or after k is the parent of inner node i. */
  lemma {:induction false} ParentOf(n: nat, R: seq<nat>, i: nat, k: nat) returns (p: nat)
    requires Shape(n, R) && k < |R| && i < R[k]
    ensures p < k && R[p] <= i < R[p + 1] <= p
  {
    ShapeBounds(n, R, k);
    assert k > 0;
    if R[k - 1] <= i {
      p := k - 1;
      ShapeBounds(n, R, p);
    } else {
      p := ParentOf(n, R, i, k - 1);
    }
  }

  lemma {:induction false} LeafParentOf(n: nat, R: seq<nat>, i: nat, k: nat) returns (p: nat)
    requires Shape(n, R) && k < |R| && i < Leaves(R, k)
    ensures p < k && Leaves(R, p) <= i < Leaves(R, p + 1)
  {
    ShapeBounds(n, R, k);
    assert k > 0;
    if Leaves(R, k - 1) <= i {
      p := k - 1;
    } else {
      p := LeafParentOf(n, R, i, k - 1);
    }
  }

  lemma ChildDepth(R: seq<nat>, D: seq<nat>, l: seq<nat>, p: nat, i: nat)
    requires Depths(R, D, l) && p < |D|
    ensures R[p] <= i < R[p + 1] ==> i < |D| && D[i] == D[p] + 1
    ensures Leaves(R, p) <= i < Leaves(R, p + 1) ==> i < |l| && l[i] == D[p] + 1
  {
    ShapeBounds(|l|, R, p);
    assert Level(R, D, l, p);
    var ps := Picked(l, D, R, p);
    if R[p] <= i < R[p + 1] {
      assert ps[i - R[p]] == D[i];
    }
    if Leaves(R, p) <= i < Leaves(R, p + 1) {
      assert ps[R[p + 1] - R[p] + (i - Leaves(R, p))] == l[i];
    }
  }

  lemma {:induction false} DepthBound(R: seq<nat>, D: seq<nat>, l: seq<nat>, i: nat)
    requires Depths(R, D, l) && i < |D|
    ensures D[i] + i < |D|
    decreases |D| - i
  {
    if i < |D| - 1 {
      LastRoot(l, D, R);
      var p := ParentOf(|l|, R, i, |D|);
      ChildDepth(R, D, l, p, i);
      DepthBound(R, D, l, p);
    }
  }

  lemma LeafDepthBound(R: seq<nat>, D: seq<nat>, l: seq<nat>, i: nat)
    requires Depths(R, D, l) && i < |l|
    ensures 1 <= l[i] < |l|
  {
    LastRoot(l, D, R);
    var p := LeafParentOf(|l|, R, i, |D|);
    ChildDepth(R, D, l, p, i);
    DepthBound(R, D, l, p);
  }

  /** The leaf depths of the tree are a complete code of the least possible cost. */
  lemma TreeIsOptimal(w: seq<nat>, W: seq<nat>, R: seq<nat>, D: seq<nat>, l: seq<nat>)
    requires Ascending(w) && Plan(w, W, R) && Depths(R, D, l) && |w| == |l| == |W| + 1
    ensures Cost(w, l) == OptimalCost(w)
    ensures Bounded(l, |l|) && Kraft(l, |l|) == Pow2(|l|)
  {
    forall i | 0 <= i < |l| ensures l[i] <= |l| { LeafDepthBound(R, D, l, i); }
    forall i | 0 <= i < |D| ensures D[i] <= |l| { DepthBound(R, D, l, i); }
    assert Bounded(l, |l|) && Bounded(D, |l|);
    assert Roots(w, W, R, 0) == w && Roots(l, D, R, 0) == l;
    hide *;
    CostFrom(w, W, l, D, R, 0);
    KraftFrom(l, D, R, 0, |l|);
    SortedIsUnique(Sort(w), w);
  }

  // ----- extending a plan by the two lightest roots

  lemma ExtendShape(n: nat, R: seq<nat>, r: nat)
    requires Shape(n, R)
    requires var k := |R| - 1; R[k] <= r <= R[k] + 2 && r <= k && 2 * (k + 1) - r <= n
    ensures Shape(n, R + [r])
  {
    var S := R + [r];
    forall j | 0 <= j < |S| - 1 ensures TakesTwo(n, S, j) {
      if j < |R| - 1 { assert TakesTwo(n, R, j); }
    }
  }

  lemma SameSlices(w: seq<nat>, W: seq<nat>, R: seq<nat>, x: nat, r: nat, k: nat)
    requires Shape(|w|, R) && Shape(|w|, R + [r]) && |R| == |W| + 1 && k < |W|
    ensures Picked(w, W + [x], R + [r], k) == Picked(w, W, R, k)
    ensures Others(w, W + [x], R + [r], k) == Others(w, W, R, k)
    ensures Roots(w, W + [x], R + [r], k + 1) == Roots(w, W, R, k + 1)
  {
    ShapeBounds(|w|, R, k);
    ShapeBounds(|w|, R, k + 1);
    assert (W + [x])[R[k]..R[k + 1]] == W[R[k]..R[k + 1]];
    assert (W + [x])[R[k + 1]..k] == W[R[k + 1]..k];
    assert (W + [x])[R[k + 1]..k + 1] == W[R[k + 1]..k + 1];
  }

  lemma ExtendPlan(w: seq<nat>, W: seq<nat>, R: seq<nat>, x: nat, r: nat)
    requires Plan(w, W, R) && Shape(|w|, R + [r]) && Node(w, W + [x], R + [r], |W|)
    ensures Plan(w, W + [x], R + [r])
  {
    forall k | 0 <= k < |W| + 1 ensures Node(w, W + [x], R + [r], k) {
      if k < |W| {
        NodeFacts(w, W, R, k);
        SameSlices(w, W, R, x, r, k);
      }
    }
  }

  /** The next node may take the two roots that the two comparisons of the first phase select. */
  ghost predicate Selected(w: seq<nat>, W: seq<nat>, R: seq<nat>, r: nat, x: nat)
    requires Shape(|w|, R) && |R| == |W| + 1
  {
    var k := |W|;
    var a, c, d := R[k], Leaves(R, k), 2 * (k + 1) - r;
    && a <= r <= a + 2 && r <= k && 0 <= c <= d <= |w|
    && (r > a && d < |w| ==> W[r - 1] <= w[d])
    && (d > c && r < k ==> w[d - 1] <= W[r])
    && x == (if r == a then w[c] + w[c + 1] else if r == a + 1 then W[a] + w[c] else W[a] + W[a + 1])
  }

  lemma SelectedAreLightest(w: seq<nat>, W: seq<nat>, R: seq<nat>, r: nat, x: nat)
    requires Ascending(w) && Ascending(W) && Shape(|w|, R) && |R| == |W| + 1 && Selected(w, W, R, r, x)
    ensures var k := |W|; var a, c, d := R[k], Leaves(R, k), 2 * (k + 1) - r;
            && (forall i, j :: a <= i < r <= j < k ==> W[i] <= W[j])
            && (forall i, j :: a <= i < r && d <= j < |w| ==> W[i] <= w[j])
            && (forall i, j :: c <= i < d && r <= j < k ==> w[i] <= W[j])
            && (forall i, j :: c <= i < d <= j < |w| ==> w[i] <= w[j])
  {
    var k := |W|;
    var a, c, d := R[k], Leaves(R, k), 2 * (k + 1) - r;
    forall i, j | a <= i < r && d <= j < |w| ensures W[i] <= w[j] {
      assert W[i] <= W[r - 1] && w[d] <= w[j];
    }
    forall i, j | c <= i < d && r <= j < k ensures w[i] <= W[j] {
      assert w[i] <= w[d - 1] && W[r] <= W[j];
    }
  }

  lemma SelectedBounds(w: seq<nat>, W: seq<nat>, R: seq<nat>, r: nat, x: nat)
    requires Plan(w, W, R) && Selected(w, W, R, r, x)
    ensures var k := |W|; var a, c, d := R[k], Leaves(R, k), 2 * (k + 1) - r;
            && a <= r <= a + 2 && r <= k && 0 <= c <= d <= |w|
            && Shape(|w|, R + [r]) && Leaves(R + [r], k) == c && Leaves(R + [r], k + 1) == d
            && (W[a..r] + w[c..d])[0] + (W[a..r] + w[c..d])[1] == x
  {
    hide Node;
    assert Shape(|w|, R);
    hide Shape;
    ExtendShape(|w|, R, r);
  }

  lemma SelectedSlices(w: seq<nat>, W: seq<nat>, R: seq<nat>, r: nat, x: nat)
    requires Shape(|w|, R + [r]) && |R| == |W| + 1
    requires R[|W|] <= r <= |W| && 0 <= Leaves(R + [r], |W|) <= Leaves(R + [r], |W| + 1) <= |w|
    ensures var k, S := |W|, R + [r];
            && Picked(w, W + [x], S, k) == W[R[k]..r] + w[Leaves(S, k)..Leaves(S, k + 1)]
            && Others(w, W + [x], S, k) == W[r..k] + w[Leaves(S, k + 1)..]
  {
    hide Shape, Leaves;
    var k, S := |W|, R + [r];
    ShapeBounds(|w|, S, k);
    assert (W + [x])[R[k]..r] == W[R[k]..r] && (W + [x])[r..k] == W[r..k];
  }

  lemma NodeOf(w: seq<nat>, W: seq<nat>, R: seq<nat>, k: nat, p: seq<nat>, o: seq<nat>)
    requires Shape(|w|, R) && |R| == |W| + 1 && k < |W| && p == Picked(w, W, R, k) && o == Others(w, W, R, k)
    requires W[k] == p[0] + p[1] && forall x, e :: x in p && e in o ==> x <= e
    ensures Node(w, W, R, k)
  {
    hide Shape, Picked, Others;
    assert p[0] in p && p[1] in p;
  }

  lemma SelectedIsNode(w: seq<nat>, W: seq<nat>, R: seq<nat>, r: nat, x: nat)
    requires Ascending(w) && Ascending(W) && Plan(w, W, R) && Selected(w, W, R, r, x)
    ensures Plan(w, W + [x], R + [r])
  {
    var k, S := |W|, R + [r];
    var a, c, d := R[k], Leaves(R, k), 2 * (k + 1) - r;
    hide *;
    SelectedBounds(w, W, R, r, x);
    SelectedAreLightest(w, W, R, r, x);
    SelectedSlices(w, W, R, r, x);
    var p, o := W[a..r] + w[c..d], W[r..k] + w[d..];
    Split(W, w, a, r, k, c, d, p, o);
    NodeOf(w, W + [x], S, k, p, o);
    ExtendPlan(w, W, R, x, r);
  }

  lemma Split(W: seq<nat>, w: seq<nat>, a: nat, r: nat, k: nat, c: nat, d: nat, p: seq<nat>, o: seq<nat>)
    requires a <= r <= k == |W| && c <= d <= |w|
    requires p == W[a..r] + w[c..d] && o == W[r..k] + w[d..]
    requires forall i, j :: a <= i < r <= j < k ==> W[i] <= W[j]
    requires forall i, j :: a <= i < r && d <= j < |w| ==> W[i] <= w[j]
    requires forall i, j :: c <= i < d && r <= j < k ==> w[i] <= W[j]
    requires forall i, j :: c <= i < d <= j < |w| ==> w[i] <= w[j]
    ensures forall x, e :: x in p && e in o ==> x <= e
  {
    forall x, e | x in p && e in o ensures x <= e {
      var i :| 0 <= i < |p| && p[i] == x;
      var j :| 0 <= j < |o| && o[j] == e;
      assert x == if i < r - a then W[a + i] else w[c + (i - (r - a))];
      assert e == if j < k - r then W[r + j] else w[d + (j - (k - r))];
    }
  }

  /** Each weight that node k takes was there before node k - 1 was made, or is node k - 1. */
  lemma TakenBefore(w: seq<nat>, W: seq<nat>, R: seq<nat>, k: nat, i: nat)
    requires Shape(|w|, R) && |R| == |W| + 1 && 1 <= k < |W| && i < 2
    ensures Picked(w, W, R, k)[i] in Others(w, W, R, k - 1) || Picked(w, W, R, k)[i] == W[k - 1]
  {
    hide Shape, TakesTwo;
    ShapeBounds(|w|, R, k - 1);
    ShapeBounds(|w|, R, k);
    var p, o := Picked(w, W, R, k), Others(w, W, R, k - 1);
    var a, b := R[k], R[k + 1];
    if i < b - a {
      assert p[i] == W[a + i];
      if a + i < k - 1 { assert p[i] == o[i]; }
    } else {
      var c := Leaves(R, k) + (i - (b - a));
      assert p[i] == w[c];
      assert p[i] == o[k - 1 - a + (c - Leaves(R, k))];
    }
  }

  /** Inner nodes are made in ascending order of weight. */
  lemma NextIsHeavier(w: seq<nat>, W: seq<nat>, R: seq<nat>)
    requires Plan(w, W, R) && |W| >= 2 && Ascending(W[..|W| - 1])
    ensures Ascending(W)
  {
    var k := |W| - 1;
    assert W[k - 1] <= W[k] by {
      hide *;
      NodeFacts(w, W, R, k);
      NodeFacts(w, W, R, k - 1);
      TakenBefore(w, W, R, k, 0);
      TakenBefore(w, W, R, k, 1);
    }
    AscendingNext(W, k);
  }

  lemma AscendingNext(W: seq<nat>, k: nat)
    requires |W| == k + 1 >= 2 && Ascending(W[..k]) && W[k - 1] <= W[k]
    ensures Ascending(W)
  {
    assert forall i :: 0 <= i < k ==> W[..k][i] == W[i];
  }

  lemma NodeFits(w: seq<nat>, W: seq<nat>, R: seq<nat>, k: nat)
    requires Plan(w, W, R) && k < |W|
    ensures W[k] <= Sum(w)
  {
    hide *;
    NodeFacts(w, W, R, k);
    TotalStays(w, W, R, k);
    RootsSplit(w, W, R, k);
    SumNonNegative(Others(w, W, R, k));
  }

  // ----- the algorithm

  /** par[i] is the parent of inner node i, for every inner node that has one. */
  ghost predicate Parents(R: seq<nat>, par: seq<nat>) {
    && R != [] && |par| == R[|R| - 1]
    && forall k, i :: 0 <= k < |R| - 1 && R[k] <= i < R[k + 1] && i < |par| ==> par[i] == k
  }

  /** What the slots of A hold while inner node `next` is being made. */
  ghost predicate Queues(A: array<SymFreq>, w: seq<nat>, W: seq<nat>, par: seq<nat>, next: nat, root: nat, leaf: nat)
    reads A
  {
    && |w| <= A.Length && |W| == next < |w| && root == |par| <= next < leaf <= |w|
    && (forall i :: 0 <= i < root ==> A[i].key == par[i])
    && (forall i :: root <= i < next ==> A[i].key == W[i])
    && (forall i :: leaf <= i < |w| ==> A[i].key == w[i])
  }

  /** A selection of the first phase, with r and c elements of the two queues gone: the lighter head goes next. */
  ghost predicate Chosen(w: seq<nat>, W: seq<nat>, r: nat, c: nat, r1: nat, c1: nat) {
    && r <= |W| && c <= |w| && (r == |W| ==> c < |w|)
    && if c == |w| || (r < |W| && W[r] < w[c]) then r1 == r + 1 && c1 == c else r1 == r && c1 == c + 1
  }

  /** The weight that the selection takes. */
  ghost function Taken(w: seq<nat>, W: seq<nat>, r: nat, c: nat, r1: nat, c1: nat): nat
    requires Chosen(w, W, r, c, r1, c1)
  {
    if r1 > r then W[r1 - 1] else w[c1 - 1]
  }

  /** The first of the two selections for node `next`: the lighter of the two queue heads moves to its slot. */
  method TakeFirst(A: array<SymFreq>, n: nat, next: nat, root: nat, leaf: nat, ghost w: seq<nat>, ghost W: seq<nat>,
                   ghost par: seq<nat>)
    returns (root': nat, leaf': nat, ghost par': seq<nat>)
    requires n == |w| <= MAX_HUFF_SYMBOLS && Queues(A, w, W, par, next, root, leaf) && root < next
    modifies A
    ensures Queues(A, w, W, par', next, root', leaf')
    ensures Chosen(w, W, root, leaf, root', leaf') && A[next].key == Taken(w, W, root, leaf, root', leaf')
    ensures root <= root' && par' == par + seq(root' - root, _ => next)
    ensures forall i :: 0 <= i < A.Length ==> A[i].sym == old(A[i].sym)
    ensures forall i :: n <= i < A.Length ==> A[i] == old(A[i])
  {
    root', leaf', par' := root, leaf, par;
    if leaf >= n || A[root].key < A[leaf].key {
      A[next] := A[next].(key := A[root].key);
      A[root] := A[root].(key := U16(next));
      root', par' := root + 1, par + [next];
    } else {
      A[next] := A[next].(key := A[leaf].key);
      leaf' := leaf + 1;
    }
  }

  /** The second selection: the lighter of the two queue heads is added to the slot of node `next`. */
  method TakeSecond(A: array<SymFreq>, n: nat, next: nat, root: nat, leaf: nat, ghost w: seq<nat>, ghost W: seq<nat>,
                    ghost par: seq<nat>)
    returns (root': nat, leaf': nat, ghost par': seq<nat>)
    requires n == |w| <= MAX_HUFF_SYMBOLS && Queues(A, w, W, par, next, root, leaf)
    requires root == next ==> leaf < n
    modifies A
    ensures Queues(A, w, W, par', next, root', leaf')
    ensures Chosen(w, W, root, leaf, root', leaf')
            && A[next].key == U16(old(A[next].key) + Taken(w, W, root, leaf, root', leaf'))
    ensures root <= root' && par' == par + seq(root' - root, _ => next)
    ensures forall i :: 0 <= i < A.Length ==> A[i].sym == old(A[i].sym)
    ensures forall i :: n <= i < A.Length ==> A[i] == old(A[i])
  {
    root', leaf', par' := root, leaf, par;
    if leaf >= n || (root < next && A[root].key < A[leaf].key) {
      A[next] := A[next].(key := U16(A[next].key + A[root].key));
      A[root] := A[root].(key := U16(next));
      root', par' := root + 1, par + [next];
    } else {
      A[next] := A[next].(key := U16(A[next].key + A[leaf].key));
      leaf' := leaf + 1;
    }
  }

  lemma ChosenStep(w: seq<nat>, W: seq<nat>, r: nat, c: nat, r1: nat, c1: nat)
    requires Chosen(w, W, r, c, r1, c1)
    ensures r1 + c1 == r + c + 1 && r <= r1 && c <= c1
  {
  }

  lemma ChosenIsSelected(w: seq<nat>, W: seq<nat>, R: seq<nat>, r1: nat, c1: nat, r2: nat, c2: nat)
    requires Ascending(w) && Ascending(W) && Shape(|w|, R) && |R| == |W| + 1 && 1 <= |W| < |w| - 1
    requires R[|W|] < |W| && 0 <= Leaves(R, |W|) <= |w|
    requires Chosen(w, W, R[|W|], Leaves(R, |W|), r1, c1) && Chosen(w, W, r1, c1, r2, c2)
    ensures Selected(w, W, R, r2, Taken(w, W, R[|W|], Leaves(R, |W|), r1, c1) + Taken(w, W, r1, c1, r2, c2))
  {
    hide Shape;
    assert r1 == R[|W|] && r2 == r1 + 1 && r2 < |W| ==> w[c1 - 1] <= W[r2];
  }

  /** One turn of the first phase. */
  method MakeNode(A: array<SymFreq>, n: nat, next: nat, root: nat, leaf: nat, ghost w: seq<nat>, ghost W: seq<nat>,
                  ghost R: seq<nat>, ghost par: seq<nat>)
    returns (root': nat, leaf': nat, ghost W': seq<nat>, ghost R': seq<nat>, ghost par': seq<nat>)
    requires n == |w| <= MAX_HUFF_SYMBOLS && Ascending(w) && Sum(w) < 0x1_0000
    requires Queues(A, w, W, par, next, root, leaf) && 1 <= next < n - 1
    requires Plan(w, W, R) && Ascending(W) && Parents(R, par)
    requires root == R[next] < next && leaf == Leaves(R, next)
    modifies A
    ensures Queues(A, w, W', par', next + 1, root', leaf')
    ensures Plan(w, W', R') && Ascending(W') && Parents(R', par')
    ensures root' == R'[next + 1] <= next && leaf' == Leaves(R', next + 1)
    ensures forall i :: 0 <= i < A.Length ==> A[i].sym == old(A[i].sym)
    ensures forall i :: n <= i < A.Length ==> A[i] == old(A[i])
  {
    QueueSizes(A, w, W, par, next, root, leaf);
    hide *;
    ghost var par1;
    var root1, leaf1;
    root1, leaf1, par1 := TakeFirst(A, n, next, root, leaf, w, W, par);
    ChosenStep(w, W, root, leaf, root1, leaf1);
    QueueSizes(A, w, W, par1, next, root1, leaf1);
    root', leaf', par' := TakeSecond(A, n, next, root1, leaf1, w, W, par1);
    assert par' == par + seq(root' - root, _ => next);
    W', R' := NextPlan(w, W, R, par, root1, leaf1, root', leaf');
    QueuesNext(A, w, W, W', par', next, root', leaf');
  }

  lemma QueueSizes(A: array<SymFreq>, w: seq<nat>, W: seq<nat>, par: seq<nat>, next: nat, root: nat, leaf: nat)
    requires Queues(A, w, W, par, next, root, leaf)
    ensures |w| <= A.Length && |W| == next < |w| && root == |par| <= next < leaf <= |w|
  {
  }

  lemma QueuesNext(A: array<SymFreq>, w: seq<nat>, W: seq<nat>, W': seq<nat>, par: seq<nat>, next: nat, root: nat,
                   leaf: nat)
    requires Queues(A, w, W, par, next, root, leaf) && next + 1 < leaf
    requires |W'| == next + 1 && W'[..next] == W && A[next].key == W'[next]
    ensures Queues(A, w, W', par, next + 1, root, leaf)
  {
    assert forall i :: 0 <= i < next ==> W'[i] == W'[..next][i];
  }

  /** The two selections extend the plan by one node, whose weight is the sum of what they took. */
  lemma NextPlan(w: seq<nat>, W: seq<nat>, R: seq<nat>, par: seq<nat>, r1: nat, c1: nat, r2: nat, c2: nat)
    returns (W': seq<nat>, R': seq<nat>)
    requires Ascending(w) && Plan(w, W, R) && Ascending(W) && Parents(R, par) && 1 <= |W| < |w| - 1
    requires R[|W|] < |W| && 0 <= Leaves(R, |W|) <= |w|
    requires Chosen(w, W, R[|W|], Leaves(R, |W|), r1, c1) && Chosen(w, W, r1, c1, r2, c2)
    ensures R' == R + [r2] && |W'| == |W| + 1 && W'[..|W|] == W
    ensures W'[|W|] == Taken(w, W, R[|W|], Leaves(R, |W|), r1, c1) + Taken(w, W, r1, c1, r2, c2)
    ensures W'[|W|] <= Sum(w) && Plan(w, W', R') && Ascending(W')
    ensures r2 <= |W| && c2 == Leaves(R', |W| + 1)
    ensures r2 >= R[|W|] && Parents(R', par + seq(r2 - R[|W|], _ => |W|))
  {
    hide Shape, Node, Ascending, Parents, Sum, Selected;
    ChosenIsSelected(w, W, R, r1, c1, r2, c2);
    var x := Taken(w, W, R[|W|], Leaves(R, |W|), r1, c1) + Taken(w, W, r1, c1, r2, c2);
    W', R' := Extend(w, W, R, r2, x);
    assert R'[..|R|] == R;
    ShapeBounds(|w|, R', |W|);
    assert |par| == R[|W|] by { ParentsLength(R, par); }
    ExtendParents(|w|, R', par, par + seq(r2 - R[|W|], _ => |W|));
  }

  lemma ParentsLength(R: seq<nat>, par: seq<nat>)
    requires Parents(R, par)
    ensures R != [] && |par| == R[|R| - 1]
  {
  }

  /** First phase: make the inner nodes; a node's slot holds its weight until it is used, then its parent. */
  method JoinWeights(A: array<SymFreq>, n: nat, ghost w: seq<nat>)
    returns (ghost W: seq<nat>, ghost R: seq<nat>, ghost par: seq<nat>)
    requires 2 <= n <= A.Length && n <= MAX_HUFF_SYMBOLS
    requires |w| == n && Ascending(w) && Sum(w) < 0x1_0000
    requires forall i :: 0 <= i < n ==> A[i].key == w[i]
    modifies A
    ensures Plan(w, W, R) && |W| == n - 1 && Ascending(W) && Parents(R, par)
    ensures |par| == n - 2 && forall i :: 0 <= i < n - 2 ==> A[i].key == par[i]
    ensures forall i :: 0 <= i < A.Length ==> A[i].sym == old(A[i].sym)
    ensures forall i :: n <= i < A.Length ==> A[i] == old(A[i])
  {
    W, R, par := FirstNode(w);
    A[0] := A[0].(key := U16(A[0].key + A[1].key));
    var root: nat, leaf: nat, next: nat := 0, 2, 1;
    while next < n - 1
      invariant 1 <= next <= n - 1
      invariant Plan(w, W, R) && Ascending(W) && |W| == next
      invariant root == R[next] < next && leaf == Leaves(R, next)
      invariant Queues(A, w, W, par, next, root, leaf) && Parents(R, par)
      invariant forall i :: 0 <= i < A.Length ==> A[i].sym == old(A[i].sym)
      invariant forall i :: n <= i < A.Length ==> A[i] == old(A[i])
    {
      hide Shape, Node, Ascending, Parents, Sum;
      root, leaf, W, R, par := MakeNode(A, n, next, root, leaf, w, W, R, par);
      next := next + 1;
    }
    LastRoot(w, W, R);
  }

  lemma FirstNode(w: seq<nat>) returns (W: seq<nat>, R: seq<nat>, par: seq<nat>)
    requires |w| >= 2 && Ascending(w)
    ensures W == [w[0] + w[1]] && R == [0, 0] && par == []
    ensures Plan(w, W, R) && Ascending(W) && Parents(R, par) && W[0] <= Sum(w)
  {
    W, R, par := [], [0], [];
    SelectedIsNode(w, W, R, 0, w[0] + w[1]);
    W, R := W + [w[0] + w[1]], R + [0];
    NodeFits(w, W, R, 0);
  }

  lemma Extend(w: seq<nat>, W: seq<nat>, R: seq<nat>, r: nat, x: nat) returns (V: seq<nat>, S: seq<nat>)
    requires Ascending(w) && Ascending(W) && W != [] && Plan(w, W, R) && Selected(w, W, R, r, x)
    ensures V == W + [x] && S == R + [r]
    ensures Plan(w, V, S) && Ascending(V) && x <= Sum(w)
  {
    V, S := W + [x], R + [r];
    SelectedIsNode(w, W, R, r, x);
    NodeFits(w, V, S, |W|);
    assert V[..|V| - 1] == W;
    NextIsHeavier(w, V, S);
  }

  lemma {:induction false} ShapeMono(n: nat, R: seq<nat>, j: nat, k: nat)
    requires Shape(n, R) && j <= k < |R|
    ensures R[j] <= R[k]
  {
    if j < k {
      ShapeMono(n, R, j, k - 1);
      ShapeBounds(n, R, k - 1);
    }
  }

  lemma ExtendParents(n: nat, R: seq<nat>, par: seq<nat>, par': seq<nat>)
    requires Shape(n, R) && |R| >= 2 && Parents(R[..|R| - 1], par) && par <= par' && |par'| == R[|R| - 1]
    requires forall i :: |par| <= i < |par'| ==> par'[i] == |R| - 2
    ensures Parents(R, par')
  {
    var S := R[..|R| - 1];
    forall k, i | 0 <= k < |R| - 1 && R[k] <= i < R[k + 1] && i < |par'| ensures par'[i] == k {
      if k < |S| - 1 {
        ShapeMono(n, R, k + 1, |S| - 1);
        assert S[k] <= i < S[k + 1] && i < |par|;
      }
    }
  }

  // ----- second phase

  lemma ParentAbove(n: nat, R: seq<nat>, par: seq<nat>, i: nat)
    requires Shape(n, R) && Parents(R, par) && i < |par|
    ensures i < par[i] < |R| - 1 && R[par[i]] <= i < R[par[i] + 1]
  {
    var p := ParentOf(n, R, i, |R| - 1);
  }

  /** D is the depth of every inner node under the parents par; the last node is the root. */
  ghost predicate InnerDepths(par: seq<nat>, D: seq<nat>) {
    && |D| == |par| + 1 && D[|par|] == 0
    && forall i :: 0 <= i < |par| ==> i < par[i] <= |par| && D[i] == D[par[i]] + 1
  }

  lemma {:induction false} InnerDepthBound(par: seq<nat>, D: seq<nat>, i: nat)
    requires InnerDepths(par, D) && i < |D|
    ensures D[i] + i < |D|
    decreases |D| - i
  {
    if i < |par| { InnerDepthBound(par, D, par[i]); }
  }

  lemma LastInnerDepth(par: seq<nat>, D: seq<nat>)
    requires InnerDepths(par, D)
    ensures |D| == |par| + 1 && D[|par|] == 0
  {
  }

  lemma InnerDepthStep(par: seq<nat>, D: seq<nat>, i: nat)
    requires InnerDepths(par, D) && i < |par|
    ensures |D| == |par| + 1 && i < par[i] <= |par| && D[i] == D[par[i]] + 1 < |D|
  {
    InnerDepthBound(par, D, i);
  }

  ghost function DepthOf(par: seq<nat>, i: nat): nat
    requires i <= |par| && forall j :: 0 <= j < |par| ==> j < par[j] <= |par|
    decreases |par| - i
  {
    if i == |par| then 0 else DepthOf(par, par[i]) + 1
  }

  lemma DepthsOf(n: nat, R: seq<nat>, par: seq<nat>) returns (D: seq<nat>)
    requires Shape(n, R) && Parents(R, par) && |par| == n - 2 && |R| == n
    ensures InnerDepths(par, D)
  {
    forall j | 0 <= j < |par| ensures j < par[j] <= |par| { ParentAbove(n, R, par, j); }
    D := seq(|par| + 1, i requires 0 <= i <= |par| => DepthOf(par, i));
  }

  /** Second phase: replace every parent by the depth of the node. */
  method ResolveDepths(A: array<SymFreq>, n: nat, ghost R: seq<nat>, ghost par: seq<nat>) returns (ghost D: seq<nat>)
    requires 2 <= n <= A.Length && n <= MAX_HUFF_SYMBOLS
    requires Shape(n, R) && Parents(R, par) && |par| == n - 2 && |R| == n
    requires forall i :: 0 <= i < n - 2 ==> A[i].key == par[i]
    modifies A
    ensures InnerDepths(par, D) && forall i :: 0 <= i < n - 1 ==> A[i].key == D[i]
    ensures forall i :: 0 <= i < A.Length ==> A[i].sym == old(A[i].sym)
    ensures forall i :: n <= i < A.Length ==> A[i] == old(A[i])
  {
    D := DepthsOf(n, R, par);
    LastInnerDepth(par, D);
    hide *;
    A[n - 2] := A[n - 2].(key := 0);
    var next := n as int - 3;
    while next >= 0
      invariant -1 <= next <= n - 3
      invariant forall i :: 0 <= i < A.Length ==>
                              A[i] == if next < i < n - 1 then old(A[i]).(key := D[i]) else old(A[i])
    {
      InnerDepthStep(par, D, next);
      A[next] := A[next].(key := U16(A[A[next].key].key + 1));
      next := next - 1;
    }
  }

  // ----- third phase

  ghost function LeafParent(n: nat, R: seq<nat>, i: nat, k: nat): (p: nat)
    requires Shape(n, R) && k < |R| && i < Leaves(R, k)
    ensures p < k && Leaves(R, p) <= i < Leaves(R, p + 1)
  {
    ShapeBounds(n, R, k);
    if Leaves(R, k - 1) <= i then k - 1 else LeafParent(n, R, i, k - 1)
  }

  lemma {:induction false} LeavesMono(n: nat, R: seq<nat>, j: nat, k: nat)
    requires Shape(n, R) && j <= k < |R|
    ensures Leaves(R, j) <= Leaves(R, k)
  {
    if j < k {
      LeavesMono(n, R, j, k - 1);
      ShapeBounds(n, R, k - 1);
    }
  }

  lemma LeafDepthAt(n: nat, R: seq<nat>, k: nat, i: nat)
    requires Shape(n, R) && k + 1 < |R| && Leaves(R, k) <= i < Leaves(R, k + 1)
    ensures i < Leaves(R, |R| - 1) && LeafParent(n, R, i, |R| - 1) == k
  {
    LeavesMono(n, R, k + 1, |R| - 1);
    var p := LeafParent(n, R, i, |R| - 1);
    if p < k { LeavesMono(n, R, p + 1, k); }
    if k < p { LeavesMono(n, R, k + 1, p); }
  }

  lemma LeafDepths(R: seq<nat>, par: seq<nat>, D: seq<nat>) returns (l: seq<nat>)
    requires |R| >= 2 && Shape(|R|, R) && Parents(R, par) && |par| == |R| - 2 && InnerDepths(par, D)
    requires Leaves(R, |R| - 1) == |R|
    ensures |l| == |R| && Depths(R, D, l)
  {
    var n := |R|;
    l := seq(n, i requires 0 <= i < n => D[LeafParent(n, R, i, n - 1)] + 1);
    forall k | 0 <= k < |D| ensures Level(R, D, l, k) {
      ShapeBounds(n, R, k);
      ShapeMono(n, R, k + 1, n - 1);
      forall i | R[k] <= i < R[k + 1] ensures D[i] == D[k] + 1 {
        assert par[i] == k;
      }
      forall i: nat | Leaves(R, k) <= i < Leaves(R, k + 1) ensures l[i] == D[k] + 1 {
        LeafDepthAt(n, R, k, i);
      }
    }
  }

  /** The inner nodes from f up lie above depth d - 1, those from R[f] to f at depth d - 1, the rest below. */
  ghost predicate Reached(R: seq<nat>, D: seq<nat>, f: nat, d: nat)
    requires |R| == |D| + 1 && f < |R|
  {
    && R[f] <= f && d >= 1
    && (forall i :: 0 <= i < R[f] ==> D[i] >= d)
    && (forall i :: R[f] <= i < f && i < |D| ==> D[i] == d - 1)
  }

  lemma NextLevel(R: seq<nat>, D: seq<nat>, l: seq<nat>, f: nat, d: nat)
    requires Depths(R, D, l) && f < |R| && Reached(R, D, f, d)
    ensures Reached(R, D, R[f], d + 1) && R[R[f]] <= R[f]
    ensures Leaves(R, R[f]) <= Leaves(R, f) && Leaves(R, R[f]) >= R[f]
    ensures forall i :: Leaves(R, R[f]) <= i < Leaves(R, f) ==> 0 <= i < |l| && l[i] == d
  {
    var e := R[f];
    ShapeBounds(|l|, R, f);
    ShapeBounds(|l|, R, e);
    forall i | 0 <= i < R[e] ensures D[i] >= d + 1 {
      var p := ParentOf(|l|, R, i, e);
      ChildDepth(R, D, l, p, i);
    }
    forall i | R[e] <= i < e ensures D[i] == d {
      var p := ParentOf(|l|, R, i, f);
      if p < e { ShapeMono(|l|, R, p + 1, e); }
      ChildDepth(R, D, l, p, i);
    }
    LeavesMono(|l|, R, e, f);
    forall i | Leaves(R, e) <= i < Leaves(R, f) ensures 0 <= i < |l| && l[i] == d {
      var p := LeafParentOf(|l|, R, i, f);
      if p < e { LeavesMono(|l|, R, p + 1, e); }
      ChildDepth(R, D, l, p, i);
    }
  }

  lemma FirstLevel(R: seq<nat>, D: seq<nat>, l: seq<nat>)
    requires Depths(R, D, l)
    ensures Reached(R, D, |D|, 1) && R[|D|] == |D| - 1 && Leaves(R, |D|) == |l|
  {
    LastRoot(l, D, R);
    forall i | 0 <= i < |D| - 1 ensures D[i] >= 1 {
      var p := ParentOf(|l|, R, i, |D|);
      ChildDepth(R, D, l, p, i);
    }
  }

  /** The third phase before level d, which has avbl nodes: the inner nodes from f up and the leaves behind `next` are
      on the levels before it. */
  ghost predicate Spread(R: seq<nat>, D: seq<nat>, l: seq<nat>, f: nat, d: nat, root: int, next: int, avbl: nat) {
    var n := |R|;
    && |D| == n - 1 && |l| == n && -1 <= root <= n - 2 && -1 <= next <= n - 1 && d + f <= n
    && if d == 0 then f == n && avbl == 1 && root == n - 2 && next == n - 1
       else f < n && Reached(R, D, f, d) && root + 1 == R[f] && next + 1 == Leaves(R, f) && avbl == 2 * (f - R[f])
  }

  lemma SpreadLevel(R: seq<nat>, D: seq<nat>, l: seq<nat>, f: nat, d: nat, root: int, next: int, avbl: nat)
    returns (e: nat, g: nat)
    requires Depths(R, D, l) && Spread(R, D, l, f, d, root, next, avbl) && avbl > 0
    ensures e <= root + 1 && g < f && d < |l| && root < |D| && |D| + 1 == |l|
    ensures (forall i :: e <= i <= root ==> D[i] == d) && forall i :: 0 <= i < e ==> D[i] > d
    ensures var used := root + 1 - e; var next' := next - (avbl - used);
            && used <= avbl && -1 <= e - 1 <= next' <= next < |l|
            && (forall i :: next' < i <= next ==> l[i] == d)
            && Spread(R, D, l, g, d + 1, e - 1, next', 2 * used)
  {
    FirstLevel(R, D, l);
    g := if d == 0 then |D| else R[f];
    if d > 0 { NextLevel(R, D, l, f, d); }
    e := R[g];
  }

  lemma SpreadEnds(R: seq<nat>, D: seq<nat>, l: seq<nat>, f: nat, d: nat, root: int, next: int)
    requires Depths(R, D, l) && Spread(R, D, l, f, d, root, next, 0)
    ensures next == -1
  {
    ShapeBounds(|l|, R, f);
  }

  lemma SpreadStart(R: seq<nat>, D: seq<nat>, l: seq<nat>)
    requires Depths(R, D, l)
    ensures |l| >= 2 && Spread(R, D, l, |l|, 0, |l| - 2, |l| - 1, 1)
  {
  }

  /** Third phase: give every leaf its depth, the heaviest leaves first, level by level from the root. */
  method SpreadDepths(A: array<SymFreq>, n: nat, ghost R: seq<nat>, ghost D: seq<nat>, ghost l: seq<nat>)
    requires 2 <= n <= A.Length && n <= MAX_HUFF_SYMBOLS && |l| == n && Depths(R, D, l)
    requires forall i :: 0 <= i < n - 1 ==> A[i].key == D[i]
    modifies A
    ensures forall i :: 0 <= i < n ==> A[i].key == l[i]
    ensures forall i :: 0 <= i < A.Length ==> A[i].sym == old(A[i].sym)
    ensures forall i :: n <= i < A.Length ==> A[i] == old(A[i])
  {
    var avbl, used, dpth := 1, 0, 0;
    var root, next: int := n - 2, n as int - 1;
    ghost var f := n;
    assert n < 0x1_0000;
    hide *;
    SpreadStart(R, D, l);
    while avbl > 0
      invariant used == 0 && Spread(R, D, l, f, dpth, root, next, avbl) && -1 <= root <= next < n && root < n - 1
      invariant forall i :: 0 <= i < A.Length && !(next < i < n) ==> A[i] == old(A[i])
      invariant forall i :: next < i < n ==> A[i] == old(A[i]).(key := l[i])
      decreases f
    {
      ghost var e, g := SpreadLevel(R, D, l, f, dpth, root, next, avbl);
      root, used := CountLevel(A, n, root, dpth, D, e);
      next, avbl := FillLevel(A, n, next, avbl, used, dpth);
      f := g;
      avbl := 2 * used;
      dpth := dpth + 1;
      used := 0;
    }
    SpreadEnds(R, D, l, f, dpth, root, next);
  }

  /** The inner nodes on level dpth: those from root down whose depth is dpth. */
  method CountLevel(A: array<SymFreq>, n: nat, root: int, dpth: nat, ghost D: seq<nat>, ghost e: nat)
    returns (root': int, used: nat)
    requires 2 <= n <= A.Length && |D| == n - 1 && -1 <= root < n - 1 && e <= root + 1
    requires forall i :: 0 <= i <= root ==> A[i].key == D[i]
    requires forall i :: e <= i <= root ==> D[i] == dpth
    requires forall i :: 0 <= i < e ==> D[i] > dpth
    ensures root' + 1 == e && used == root - root'
  {
    root', used := root, 0;
    while root' >= 0 && A[root'].key == dpth
      invariant e - 1 <= root' <= root && used == root - root'
    {
      used := used + 1;
      root' := root' - 1;
    }
  }

  /** The leaves on level dpth: what the inner nodes leave of the avbl nodes on that level. */
  method FillLevel(A: array<SymFreq>, n: nat, next: int, avbl: nat, used: nat, dpth: nat)
    returns (next': int, avbl': nat)
    requires 2 <= n <= A.Length && -1 <= next < n && used <= avbl && avbl - used <= next + 1
    modifies A
    ensures next' == next - (avbl - used) && avbl' == used
    ensures forall i :: 0 <= i < A.Length ==>
                          A[i] == if next' < i <= next then old(A[i]).(key := U16(dpth)) else old(A[i])
  {
    next', avbl' := next, avbl;
    while avbl' > used
      invariant used <= avbl' <= avbl && next' == next - (avbl - avbl')
      invariant forall i :: 0 <= i < A.Length ==>
                              A[i] == if next' < i <= next then old(A[i]).(key := U16(dpth)) else old(A[i])
    {
      A[next'] := A[next'].(key := U16(dpth));
      next' := next' - 1;
      avbl' := avbl' - 1;
    }
  }

  // ----- the whole algorithm

  function Keys(s: seq<SymFreq>): (k: seq<nat>)
    ensures |k| == |s| && forall i :: 0 <= i < |s| ==> k[i] == s[i].key
  {
    seq(|s|, i requires 0 <= i < |s| => s[i].key)
  }

  /** What the code lengths l must be for the ascending weights w. */
  ghost predicate MinimumRedundancy(w: seq<nat>, l: seq<nat>) {
    && |l| == |w|
    && (forall i :: 0 <= i < |l| ==> l[i] >= 1)
    && (forall i, j :: 0 <= i < j < |l| ==> l[j] <= l[i])
    && (if |w| == 1 then l[0] == 1 else |w| > 1 ==> Bounded(l, |w|) && Kraft(l, |w|) == Pow2(|w|))
    && forall c: seq<nat>, m: nat :: |c| == |w| && (forall i :: 0 <= i < |c| ==> c[i] >= 1) && Decodable(c, m) ==>
                                        Cost(w, l) <= Cost(w, c)
  }

  /** Older inner nodes are no higher in the tree. */
  lemma {:induction false} OlderIsDeeper(R: seq<nat>, D: seq<nat>, l: seq<nat>, i: nat, j: nat)
    requires Depths(R, D, l) && i <= j < |D|
    ensures D[j] <= D[i]
    decreases |D| - i
  {
    var n := |D|;
    LastRoot(l, D, R);
    if j < n - 1 {
      var p := ParentOf(|l|, R, i, n);
      var q := ParentOf(|l|, R, j, n);
      ChildDepth(R, D, l, p, i);
      ChildDepth(R, D, l, q, j);
      if q < p { ShapeMono(|l|, R, q + 1, p); }
      OlderIsDeeper(R, D, l, p, q);
    }
  }

  lemma LighterIsDeeper(R: seq<nat>, D: seq<nat>, l: seq<nat>, i: nat, j: nat)
    requires Depths(R, D, l) && i <= j < |l|
    ensures l[j] <= l[i]
  {
    LastRoot(l, D, R);
    var p := LeafParentOf(|l|, R, i, |D|);
    var q := LeafParentOf(|l|, R, j, |D|);
    ChildDepth(R, D, l, p, i);
    ChildDepth(R, D, l, q, j);
    if q < p { LeavesMono(|l|, R, q + 1, p); }
    OlderIsDeeper(R, D, l, p, q);
  }

  lemma TreeIsMinimal(w: seq<nat>, W: seq<nat>, R: seq<nat>, D: seq<nat>, l: seq<nat>)
    requires Ascending(w) && Plan(w, W, R) && Depths(R, D, l) && |w| == |l| == |W| + 1
    ensures MinimumRedundancy(w, l)
  {
    TreeIsOptimal(w, W, R, D, l);
    forall i | 0 <= i < |l| ensures l[i] >= 1 { LeafDepthBound(R, D, l, i); }
    forall i, j | 0 <= i < j < |l| ensures l[j] <= l[i] { LighterIsDeeper(R, D, l, i, j); }
    forall c: seq<nat>, m: nat | |c| == |w| && (forall i :: 0 <= i < |c| ==> c[i] >= 1) && Decodable(c, m)
      ensures Cost(w, l) <= Cost(w, c)
    {
      NoCodeIsCheaper(w, c, m);
    }
  }

  lemma OneSymbol(w: seq<nat>)
    requires |w| == 1
    ensures MinimumRedundancy(w, [1])
  {
    forall c: seq<nat>, m: nat | |c| == |w| && (forall i :: 0 <= i < |c| ==> c[i] >= 1) && Decodable(c, m)
      ensures Cost(w, [1]) <= Cost(w, c)
    {
      assert c[0] >= 1;
      var one: seq<nat> := [1];
      assert Cost(w[1..], one[1..]) == 0 && Cost(w[1..], c[1..]) == 0;
      assert Cost(w, c) == w[0] * c[0] && Cost(w, one) == w[0] * 1;
      MulMono(1, c[0], w[0]);
    }
  }

  lemma NoSymbols(w: seq<nat>)
    requires w == []
    ensures MinimumRedundancy(w, w)
  {
  }

  // ----- how deep a tree can get

  function Fib(n: nat): nat {
    if n < 2 then n else Fib(n - 2) + Fib(n - 1)
  }

  lemma {:induction false} FibMono(a: nat, b: nat)
    requires a <= b
    ensures Fib(a) <= Fib(b)
    decreases b
  {
    if a < b { FibMono(a, b - 1); }
  }

  /** Whatever has no parent when node k is made was left over, or made, when node c was. */
  lemma LaterRoots(w: seq<nat>, W: seq<nat>, R: seq<nat>, c: nat, k: nat, b: nat)
    requires Plan(w, W, R) && Ascending(W) && c < k < |W|
    requires b <= W[c] && forall o :: o in Others(w, W, R, c) ==> b <= o
    ensures b <= Picked(w, W, R, k)[0] && b <= Picked(w, W, R, k)[1]
  {
    ShapeBounds(|w|, R, c);
    ShapeBounds(|w|, R, k);
    ShapeMono(|w|, R, c + 1, k);
    LeavesMono(|w|, R, c + 1, k);
    var o := Others(w, W, R, c);
    forall i | R[c + 1] <= i < k ensures b <= W[i] {
      if i < c { assert o[i - R[c + 1]] == W[i]; assert W[i] in o; }
    }
    forall i | Leaves(R, c + 1) <= i < |w| ensures b <= w[i] {
      assert o[c - R[c + 1] + (i - Leaves(R, c + 1))] == w[i];
      assert w[i] in o;
    }
  }

  lemma FibSum(j: nat)
    ensures Fib(j + 3) == Fib(j + 1) + Fib(j + 2)
  {
  }

  lemma FibStep(j: nat, b: nat)
    ensures Fib(j + 3) * b == Fib(j + 1) * b + Fib(j + 2) * b
  {
    FibSum(j);
    hide *;
    Distribute(b, Fib(j + 1), Fib(j + 2));
  }

  /** Going up from an inner node, weights grow at least like Fibonacci numbers, in units of any weight b. */
  lemma {:induction false} ChainGrows(w: seq<nat>, W: seq<nat>, R: seq<nat>, D: seq<nat>, l: seq<nat>, c: nat, j: nat,
                                      b: nat)
    requires Plan(w, W, R) && Ascending(W) && Depths(R, D, l) && |w| == |l| && c < |W| == |D|
    requires Fib(j + 2) * b <= W[c] && Fib(j + 1) * b <= W[c]
    requires forall o :: o in Others(w, W, R, c) ==> Fib(j + 1) * b <= o
    ensures Fib(D[c] + j + 2) * b <= W[|W| - 1]
    decreases |W| - c
  {
    hide *;
    PlanShape(w, W, R, D, l);
    LastRoot(l, D, R);
    if c < |W| - 1 {
      var k := ParentOf(|l|, R, c, |W|);
      ChildDepth(R, D, l, k, c);
      LaterRoots(w, W, R, c, k, Fib(j + 1) * b);
      ParentGrows(w, W, R, c, k, Fib(j + 1) * b, Fib(j + 2) * b);
      FibStep(j, b);
      ChainGrows(w, W, R, D, l, k, j + 1, b);
    } else {
      LastDepth(R, D, l, c);
    }
  }

  lemma PlanShape(w: seq<nat>, W: seq<nat>, R: seq<nat>, D: seq<nat>, l: seq<nat>)
    requires Plan(w, W, R) && Depths(R, D, l)
    ensures Shape(|w|, R) && Shape(|l|, R) && |R| == |W| + 1 == |D| + 1 == |l| >= 2
  {
  }

  lemma LastDepth(R: seq<nat>, D: seq<nat>, l: seq<nat>, c: nat)
    requires Depths(R, D, l) && c == |D| - 1
    ensures D[c] == 0
  {
  }

  /** The parent k of node c weighs at least what c and any other weight left when c was made weigh together. */
  lemma ParentGrows(w: seq<nat>, W: seq<nat>, R: seq<nat>, c: nat, k: nat, x: nat, y: nat)
    requires Plan(w, W, R) && c < k < |W| && R[k] <= c < R[k + 1] && y <= W[c]
    requires x <= Picked(w, W, R, k)[0] && x <= Picked(w, W, R, k)[1]
    ensures x + y <= W[k] && y <= W[k]
    ensures forall o :: o in Others(w, W, R, k) ==> y <= o
  {
    NodeFacts(w, W, R, k);
    ShapeBounds(|w|, R, k);
    var p := Picked(w, W, R, k);
    assert p[c - R[k]] == W[c];
  }

  lemma {:induction false} RootWeight(w: seq<nat>, W: seq<nat>, R: seq<nat>)
    requires Plan(w, W, R) && |w| == |W| + 1 >= 2
    ensures W[|W| - 1] == Sum(w)
  {
    TotalStays(w, W, R, |W|);
    LastRoot(w, W, R);
    assert Sum([W[|W| - 1]]) == W[|W| - 1];
  }

  ghost predicate FibonacciBounded(w: seq<nat>, l: seq<nat>) {
    |l| == |w| >= 2 && (forall i :: 0 <= i < |w| ==> w[i] >= 1) ==> forall i :: 0 <= i < |l| ==> Fib(l[i] + 2) <= Sum(w)
  }

  lemma TreeIsShallow(w: seq<nat>, W: seq<nat>, R: seq<nat>, D: seq<nat>, l: seq<nat>)
    requires Plan(w, W, R) && Ascending(W) && Depths(R, D, l) && |w| == |l| == |W| + 1
    ensures FibonacciBounded(w, l)
  {
    if forall i :: 0 <= i < |w| ==> w[i] >= 1 {
      NodeFacts(w, W, R, 0);
      ShapeBounds(|w|, R, 0);
      var p := Picked(w, W, R, 0);
      assert p[0] == w[0] && p[1] == w[1];
      assert Fib(2) == 1 && Fib(3) == 2;
      ChainGrows(w, W, R, D, l, 0, 1, 1);
      RootWeight(w, W, R);
      LastRoot(l, D, R);
      forall i | 0 <= i < |l| ensures Fib(l[i] + 2) <= Sum(w) {
        var q := LeafParentOf(|l|, R, i, |D|);
        ChildDepth(R, D, l, q, i);
        OlderIsDeeper(R, D, l, 0, q);
        FibMono(l[i] + 2, D[0] + 3);
      }
    }
  }

  /** No code word is much longer than the weight of its symbol asks for. */
  ghost predicate WeightBounded(w: seq<nat>, l: seq<nat>) {
    |l| == |w| && forall k :: 0 <= k < |w| ==> Fib(l[k] + 1) * w[k] <= Sum(w)
  }

  lemma LeafChain(w: seq<nat>, W: seq<nat>, R: seq<nat>, D: seq<nat>, l: seq<nat>, i: nat)
    requires Plan(w, W, R) && Ascending(W) && Depths(R, D, l) && |w| == |l| == |W| + 1 && i < |w|
    ensures Fib(l[i] + 1) * w[i] <= Sum(w)
  {
    hide *;
    PlanShape(w, W, R, D, l);
    LastRoot(l, D, R);
    RootWeight(w, W, R);
    var q := LeafParentOf(|l|, R, i, |D|);
    ChildDepth(R, D, l, q, i);
    LeafParentWeight(w, W, R, i, q);
    FirstFibs(w[i]);
    ChainGrows(w, W, R, D, l, q, 0, w[i]);
  }

  lemma FirstFibs(b: nat)
    ensures Fib(1) * b == b && Fib(2) * b == b
  {
    assert Fib(1) == 1 && Fib(2) == 1;
  }

  lemma LeafParentWeight(w: seq<nat>, W: seq<nat>, R: seq<nat>, i: nat, q: nat)
    requires Plan(w, W, R) && q < |W| && i < |w| && Leaves(R, q) <= i < Leaves(R, q + 1)
    ensures w[i] <= W[q] && forall o :: o in Others(w, W, R, q) ==> w[i] <= o
  {
    NodeFacts(w, W, R, q);
    ShapeBounds(|w|, R, q);
    var p := Picked(w, W, R, q);
    assert p[R[q + 1] - R[q] + (i - Leaves(R, q))] == w[i];
  }

  lemma TreeIsWeightBounded(w: seq<nat>, W: seq<nat>, R: seq<nat>, D: seq<nat>, l: seq<nat>)
    requires Plan(w, W, R) && Ascending(W) && Depths(R, D, l) && |w| == |l| == |W| + 1
    ensures WeightBounded(w, l)
  {
    hide Plan, Depths, Fib, Sum, Ascending;
    forall i | 0 <= i < |w| ensures Fib(l[i] + 1) * w[i] <= Sum(w) { LeafChain(w, W, R, D, l, i); }
  }

  lemma Fib25()
    ensures Fib(25) == 75025
  {
    assert Fib(7) == 13 && Fib(8) == 21;
    assert Fib(9) == 34 && Fib(10) == 55;
    assert Fib(11) == 89 && Fib(12) == 144;
    assert Fib(13) == 233 && Fib(14) == 377;
    assert Fib(15) == 610 && Fib(16) == 987;
    assert Fib(17) == 1597 && Fib(18) == 2584;
    assert Fib(19) == 4181 && Fib(20) == 6765;
    assert Fib(21) == 10946 && Fib(22) == 17711;
    assert Fib(23) == 28657 && Fib(24) == 46368;
  }

  /** Positive 16-bit counts never give a code longer than 22 bits, so the 33-entry histogram is large enough. */
  lemma AtMost22Bits(w: seq<nat>, l: seq<nat>)
    requires FibonacciBounded(w, l) && |l| == |w| >= 2 && Sum(w) < 0x1_0000
    requires forall i :: 0 <= i < |w| ==> w[i] >= 1
    ensures forall i :: 0 <= i < |l| ==> l[i] <= 22
  {
    hide Fib, Sum;
    forall i | 0 <= i < |l| ensures l[i] <= 22 {
      if l[i] >= 23 {
        Fib25();
        FibMono(25, l[i] + 2);
        assert false;
      }
    }
  }

  /** Replaces the weights in A[..n] by the lengths of a minimum-redundancy code. */
  method CalculateMinimumRedundancy(A: array<SymFreq>, n: nat)
    requires n <= A.Length && n <= MAX_HUFF_SYMBOLS
    requires Ascending(Keys(A[..n])) && Sum(Keys(A[..n])) < 0x1_0000
    modifies A
    ensures MinimumRedundancy(old(Keys(A[..n])), Keys(A[..n]))
    ensures FibonacciBounded(old(Keys(A[..n])), Keys(A[..n]))
    ensures n >= 2 ==> WeightBounded(old(Keys(A[..n])), Keys(A[..n]))
    ensures forall i :: 0 <= i < A.Length ==> A[i].sym == old(A[i].sym)
    ensures forall i :: n <= i < A.Length ==> A[i] == old(A[i])
  {
    ghost var w := Keys(A[..n]);
    hide Ascending, MinimumRedundancy, Sum, Plan, Depths, InnerDepths, Parents;
    if n == 0 {
      NoSymbols(w);
      return;
    } else if n == 1 {
      A[0] := A[0].(key := 1);
      OneSymbol(w);
      assert Keys(A[..n]) == [1];
      return;
    }
    ghost var W, R, par := JoinWeights(A, n, w);
    ghost var D := ResolveDepths(A, n, R, par);
    LastRoot(w, W, R);
    ghost var l := LeafDepths(R, par, D);
    SpreadDepths(A, n, R, D, l);
    TreeIsMinimal(w, W, R, D, l);
    TreeIsShallow(w, W, R, D, l);
    TreeIsWeightBounded(w, W, R, D, l);
    assert Keys(A[..n]) == l;
  }
}
