/** Matrix-chain ordering: least costs, splits, and the printed parenthesization. */
module MatrixChain {
  // Matrix i has p[i - 1] rows and p[i] columns; numbers are 64-bit, products of dimensions 32-bit.

  const UINT64: nat := 0x1_0000_0000_0000_0000
  const INT32: nat := 0x8000_0000
  const MAX_DIM: nat := 1290

  datatype Tree = Leaf(i: nat) | Node(left: Tree, right: Tree)

  function First(t: Tree): nat {
    match t case Leaf(i) => i case Node(l, _) => First(l)
  }

  function Last(t: Tree): nat {
    match t case Leaf(i) => i case Node(_, r) => Last(r)
  }

  /** t multiplies the matrices i..j in some order. */
  predicate Covers(t: Tree, i: nat, j: nat)
    decreases t
  {
    match t
    case Leaf(m) => i == j == m
    case Node(l, r) => i <= Last(l) < j && Covers(l, i, Last(l)) && Covers(r, Last(l) + 1, j)
  }

  /** The number of scalar multiplications. */
  function Cost(p: seq<nat>, t: Tree, i: nat, j: nat): nat
    requires Covers(t, i, j) && 1 <= i && j < |p|
    decreases t
  {
    match t
    case Leaf(_) => 0
    case Node(l, r) => Cost(p, l, i, Last(l)) + Cost(p, r, Last(l) + 1, j) + p[i - 1] * p[Last(l)] * p[j]
  }

  lemma {:induction false} CoversFacts(t: Tree, i: nat, j: nat)
    requires Covers(t, i, j)
    ensures i <= j && Last(t) == j && First(t) == i
    decreases t
  {
    match t
    case Leaf(_) =>
    case Node(l, r) =>
      CoversFacts(l, i, Last(l));
      CoversFacts(r, Last(l) + 1, j);
  }

  type Table = (nat, nat) -> nat

  /** The cost of splitting i..j behind k. */
  function SplitCost(p: seq<nat>, F: Table, i: nat, j: nat, k: nat): nat
    requires 1 <= i <= k < j < |p|
  {
    F(i, k) + F(k + 1, j) + p[i - 1] * p[k] * p[j]
  }

  /** The entry for i..j is the least split cost, and the split table holds where it is reached first. */
  ghost predicate Entry(p: seq<nat>, F: Table, S: Table, i: nat, j: nat)
    requires 1 <= i < j < |p|
  {
    && i <= S(i, j) < j && F(i, j) == SplitCost(p, F, i, j, S(i, j))
    && (forall k :: i <= k < j ==> F(i, j) <= SplitCost(p, F, i, j, k))
    && forall k :: i <= k < S(i, j) ==> F(i, j) < SplitCost(p, F, i, j, k)
  }

  ghost predicate Filled(p: seq<nat>, F: Table, S: Table) {
    && (forall i :: 1 <= i < |p| ==> F(i, i) == 0)
    && (forall i, j :: 1 <= i < j < |p| ==> Entry(p, F, S, i, j))
  }

  /** No tree is cheaper than the table says. */
  lemma {:induction false} TableIsLowerBound(p: seq<nat>, F: Table, S: Table, t: Tree, i: nat, j: nat)
    requires Filled(p, F, S) && 1 <= i && j < |p| && Covers(t, i, j)
    ensures F(i, j) <= Cost(p, t, i, j)
    decreases t
  {
    match t
    case Leaf(_) =>
    case Node(l, r) =>
      TableIsLowerBound(p, F, S, l, i, Last(l));
      TableIsLowerBound(p, F, S, r, Last(l) + 1, j);
      assert Entry(p, F, S, i, j);
      assert F(i, j) <= SplitCost(p, F, i, j, Last(l));
  }

  /** The tree that printS follows. */
  function TreeOf(p: seq<nat>, F: Table, S: Table, i: nat, j: nat): Tree
    requires Filled(p, F, S) && 1 <= i <= j < |p|
    decreases j - i
  {
    if i == j then Leaf(i)
    else
      assert Entry(p, F, S, i, j);
      Node(TreeOf(p, F, S, i, S(i, j)), TreeOf(p, F, S, S(i, j) + 1, j))
  }

  /** It multiplies the matrices i..j and costs exactly what the table says. */
  lemma {:induction false} TreeReachesTable(p: seq<nat>, F: Table, S: Table, i: nat, j: nat)
    requires Filled(p, F, S) && 1 <= i <= j < |p|
    ensures Covers(TreeOf(p, F, S, i, j), i, j) && Cost(p, TreeOf(p, F, S, i, j), i, j) == F(i, j)
    decreases j - i
  {
    if i < j {
      assert Entry(p, F, S, i, j);
      var k := S(i, j);
      TreeReachesTable(p, F, S, i, k);
      TreeReachesTable(p, F, S, k + 1, j);
      CoversFacts(TreeOf(p, F, S, i, k), i, k);
    }
  }

  /** The printed tree is as cheap as any parenthesization of the same matrices. */
  lemma TreeIsOptimal(p: seq<nat>, F: Table, S: Table, i: nat, j: nat, t: Tree)
    requires Filled(p, F, S) && 1 <= i <= j < |p| && Covers(t, i, j)
    ensures Covers(TreeOf(p, F, S, i, j), i, j)
    ensures F(i, j) == Cost(p, TreeOf(p, F, S, i, j), i, j) <= Cost(p, t, i, j)
  {
    TreeReachesTable(p, F, S, i, j);
    TableIsLowerBound(p, F, S, t, i, j);
  }

  /** The dimensions determine both tables, and with them the tree. */
  lemma {:induction false} TablesAreUnique(p: seq<nat>, F: Table, S: Table, F': Table, S': Table, i: nat, j: nat)
    requires Filled(p, F, S) && Filled(p, F', S') && 1 <= i <= j < |p|
    ensures F(i, j) == F'(i, j) && (i < j ==> S(i, j) == S'(i, j))
    ensures TreeOf(p, F, S, i, j) == TreeOf(p, F', S', i, j)
    decreases j - i
  {
    if i < j {
      forall k | i <= k < j
        ensures SplitCost(p, F, i, j, k) == SplitCost(p, F', i, j, k)
      {
        TablesAreUnique(p, F, S, F', S', i, k);
        TablesAreUnique(p, F, S, F', S', k + 1, j);
      }
      SameEntry(p, F, S, F', S', i, j);
      var k := S(i, j);
      assert Entry(p, F, S, i, j) && Entry(p, F', S', i, j);
      TablesAreUnique(p, F, S, F', S', i, k);
      TablesAreUnique(p, F, S, F', S', k + 1, j);
      assert TreeOf(p, F, S, i, j) == Node(TreeOf(p, F, S, i, k), TreeOf(p, F, S, k + 1, j));
    }
  }

  lemma SameEntry(p: seq<nat>, F: Table, S: Table, F': Table, S': Table, i: nat, j: nat)
    requires Filled(p, F, S) && Filled(p, F', S') && 1 <= i < j < |p|
    requires forall k :: i <= k < j ==> SplitCost(p, F, i, j, k) == SplitCost(p, F', i, j, k)
    ensures F(i, j) == F'(i, j) && S(i, j) == S'(i, j)
  {
    assert Entry(p, F, S, i, j) && Entry(p, F', S', i, j);
    var k, k' := S(i, j), S'(i, j);
    assert SplitCost(p, F, i, j, k) == SplitCost(p, F', i, j, k);
    assert SplitCost(p, F, i, j, k') == SplitCost(p, F', i, j, k');
  }

  // ----- the tables in memory

  ghost function TableAt(T: array2<nat>): Table
    reads T
  {
    var rows, columns := T.Length0, T.Length1;
    var cells := map i: nat, j: nat | i < rows && j < columns :: (i, j) := T[i, j];
    (i: nat, j: nat) => if (i, j) in cells then cells[(i, j)] else 0
  }

  /** The products that the program multiplies out stay in an int, and so do the indices: its arithmetic is defined. */
  ghost predicate Bounded(p: seq<nat>) {
    && 2 <= |p| < INT32
    && forall a, b, c :: 0 <= a < b < c < |p| ==> Fits(p[a], p[b], p[c])
  }

  /** For instance, whenever no dimension exceeds 1290. No greater bound would do. */
  lemma SmallDimensions(p: seq<nat>)
    requires 2 <= |p| < INT32 && forall i :: 0 <= i < |p| ==> p[i] <= MAX_DIM
    ensures Bounded(p) && !Fits(MAX_DIM + 1, MAX_DIM + 1, MAX_DIM + 1)
  {
    forall a: nat, b: nat, c: nat | a < b < c < |p| ensures Fits(p[a], p[b], p[c]) {
      ProductFits(p[a], p[b], p[c]);
    }
  }

  predicate Fits(a: nat, b: nat, c: nat) {
    a * b < INT32 && a * b * c < INT32
  }

  /** The entries for at most l matrices, and for l + 1 matrices those that start before i0, are right. */
  ghost predicate Computed(p: seq<nat>, F: Table, S: Table, l: nat, i0: nat) {
    && (forall i, j :: 1 <= i <= j < |p| ==> F(i, j) <= (j - i) * (INT32 - 1))
    && (forall i :: 1 <= i < |p| ==> F(i, i) == 0)
    && (forall i, j :: 1 <= i < j < |p| && (j - i < l || (j - i == l && i < i0)) ==> Entry(p, F, S, i, j))
  }

  lemma ProductFits(a: nat, b: nat, c: nat)
    requires a <= MAX_DIM && b <= MAX_DIM && c <= MAX_DIM
    ensures Fits(a, b, c)
  {
    Times(a, MAX_DIM, b);
    Times(b, MAX_DIM, MAX_DIM);
    Times(a * b, MAX_DIM * MAX_DIM, c);
    Times(c, MAX_DIM, MAX_DIM * MAX_DIM);
  }

  lemma Times(a: nat, b: nat, c: nat)
    requires a <= b
    ensures a * c <= b * c
  {
  }

  lemma SumFits(f: nat, g: nat, q: nat, i: nat, j: nat, k: nat, n: nat)
    requires i <= k < j < n < INT32 && f <= (k - i) * (INT32 - 1) && g <= (j - (k + 1)) * (INT32 - 1) && q < INT32
    ensures f + g + q <= (j - i) * (INT32 - 1) && f + g + q < UINT64 - 1
  {
  }

  /** The table with one entry replaced. */
  ghost predicate Replaced(T: Table, T': Table, i: nat, j: nat) {
    forall a, b :: a != i || b != j ==> T'(a, b) == T(a, b)
  }

  /** The best split among those tried so far, those before k. */
  ghost predicate BestSplit(p: seq<nat>, F: Table, i: nat, j: nat, k: nat, cost: nat, split: nat)
    requires 1 <= i < j < |p|
  {
    && (k == i ==> cost == UINT64 - 1)
    && (k > i ==> i <= split < k <= j && cost == SplitCost(p, F, i, j, split))
    && (forall m :: i <= m < k && m < j ==> cost <= SplitCost(p, F, i, j, m))
    && (k > i ==> forall m :: i <= m < split ==> cost < SplitCost(p, F, i, j, m))
  }

  lemma EntryDone(p: seq<nat>, F: Table, S: Table, F': Table, S': Table, l: nat, i: nat, j: nat)
    requires Computed(p, F, S, l, i) && l >= 1 && 1 <= i < j < |p| && j == i + l
    requires Replaced(F, F', i, j) && Replaced(S, S', i, j) && BestSplit(p, F, i, j, j, F'(i, j), S'(i, j))
    requires F'(i, j) <= (j - i) * (INT32 - 1)
    ensures Computed(p, F', S', l, i + 1)
  {
    forall a, b | 1 <= a < b < |p| && (b - a < l || (b - a == l && a < i + 1)) ensures Entry(p, F', S', a, b) {
      if a == i && b == j {
        forall k | i <= k < j ensures SplitCost(p, F', i, j, k) == SplitCost(p, F, i, j, k) { }
      } else {
        assert Entry(p, F, S, a, b);
        forall k | a <= k < b ensures SplitCost(p, F', a, b, k) == SplitCost(p, F, a, b, k) { }
      }
    }
  }

  /** Fills both tables, shortest chains first. */
  method FillTables(p: seq<nat>) returns (F: array2<nat>, S: array2<nat>)
    requires Bounded(p)
    ensures F.Length0 == F.Length1 == S.Length0 == S.Length1 == |p|
    ensures Filled(p, TableAt(F), TableAt(S))
  {
    var n := |p|;
    F := new nat[n, n]((i, j) => 0);
    S := new nat[n, n]((i, j) => 0);
    assert forall i: nat, j: nat :: TableAt(F)(i, j) == 0;
    for l := 2 to n
      invariant Computed(p, TableAt(F), TableAt(S), l - 1, 1)
    {
      for i := 1 to n - l + 1
        invariant Computed(p, TableAt(F), TableAt(S), l - 1, i)
      {
        hide *;
        var j := i + l - 1;
        FillEntry(p, F, S, i, j, l - 1);
      }
      NextLength(p, TableAt(F), TableAt(S), l - 1, n - l + 1);
    }
    assert Filled(p, TableAt(F), TableAt(S));
  }

  lemma NextLength(p: seq<nat>, F: Table, S: Table, l: nat, i: nat)
    requires Computed(p, F, S, l, i) && i + l >= |p|
    ensures Computed(p, F, S, l + 1, 1)
  {
  }

  /** The innermost loop: the least cost over all splits, first one found. */
  method FillEntry(p: seq<nat>, F: array2<nat>, S: array2<nat>, i: nat, j: nat, ghost l: nat)
    requires Bounded(p) && F != S && F.Length0 == F.Length1 == S.Length0 == S.Length1 == |p|
    requires 1 <= i < j < |p| && j == i + l && Computed(p, TableAt(F), TableAt(S), l, i)
    modifies F, S
    ensures Computed(p, TableAt(F), TableAt(S), l, i + 1)
  {
    hide *;
    ghost var F0, S0 := TableAt(F), TableAt(S);
    Store(F, i, j, MaxUint64());
    ghost var f: Table := TableAt(F);
    SameTable(S0, i, j);
    NoSplitYet(p, F0, i, j, f(i, j), S0(i, j));
    for k := i to j
      invariant Replaced(F0, TableAt(F), i, j) && Replaced(S0, TableAt(S), i, j)
      invariant BestSplit(p, F0, i, j, k, TableAt(F)(i, j), TableAt(S)(i, j))
      invariant k > i ==> TableAt(F)(i, j) <= Limit(i, j)
    {
      TrySplit(p, F, S, i, j, k, l, F0, S0);
    }
    LimitIs(i, j);
    EntryDone(p, F0, S0, TableAt(F), TableAt(S), l, i, j);
  }

  function MaxUint64(): nat { UINT64 - 1 }

  function Limit(i: nat, j: nat): int { (j - i) * (INT32 - 1) }

  lemma LimitIs(i: nat, j: nat)
    ensures Limit(i, j) == (j - i) * (INT32 - 1)
  {
  }

  lemma SameTable(T: Table, i: nat, j: nat)
    ensures Replaced(T, T, i, j)
  {
  }

  lemma NoSplitYet(p: seq<nat>, F: Table, i: nat, j: nat, cost: nat, split: nat)
    requires 1 <= i < j < |p| && cost == MaxUint64()
    ensures BestSplit(p, F, i, j, i, cost, split)
  {
  }

  method Store(T: array2<nat>, i: nat, j: nat, x: nat)
    requires i < T.Length0 && j < T.Length1
    modifies T
    ensures Replaced(old(TableAt(T)), TableAt(T), i, j) && TableAt(T)(i, j) == x
  {
    T[i, j] := x;
  }

  method Load(T: array2<nat>, i: nat, j: nat) returns (x: nat)
    requires i < T.Length0 && j < T.Length1
    ensures x == TableAt(T)(i, j)
  {
    x := T[i, j];
  }

  /** One turn of the innermost loop. */
  method TrySplit(p: seq<nat>, F: array2<nat>, S: array2<nat>, i: nat, j: nat, k: nat, ghost l: nat, ghost F0: Table,
                  ghost S0: Table)
    requires Bounded(p) && F != S && F.Length0 == F.Length1 == S.Length0 == S.Length1 == |p|
    requires 1 <= i <= k < j < |p| && j == i + l && Computed(p, F0, S0, l, i)
    requires Replaced(F0, TableAt(F), i, j) && Replaced(S0, TableAt(S), i, j)
    requires BestSplit(p, F0, i, j, k, TableAt(F)(i, j), TableAt(S)(i, j))
             && (k > i ==> TableAt(F)(i, j) <= Limit(i, j))
    modifies F, S
    ensures Replaced(F0, TableAt(F), i, j) && Replaced(S0, TableAt(S), i, j)
    ensures BestSplit(p, F0, i, j, k + 1, TableAt(F)(i, j), TableAt(S)(i, j)) && TableAt(F)(i, j) <= Limit(i, j)
  {
    hide *;
    ghost var F1, S1 := TableAt(F), TableAt(S);
    var f := Load(F, i, k);
    var g := Load(F, k + 1, j);
    var best := Load(F, i, j);
    Elsewhere(F0, F1, i, j, i, k);
    Elsewhere(F0, F1, i, j, k + 1, j);
    var q := CostOfSplit(p, i, j, k, f, g, F0, S0, l);
    Improved(p, F0, i, j, k, best, S1(i, j), q);
    if q < best {
      Store(F, i, j, q);
      ReplacedTwice(F0, F1, TableAt(F), i, j);
      Store(S, i, j, k);
      ReplacedTwice(S0, S1, TableAt(S), i, j);
    }
  }

  /** The cost of one split, as the program computes it. */
  method CostOfSplit(p: seq<nat>, i: nat, j: nat, k: nat, f: nat, g: nat, ghost F: Table, ghost S: Table, ghost l: nat)
    returns (q: nat)
    requires Bounded(p) && Computed(p, F, S, l, i) && 1 <= i <= k < j < |p| && f == F(i, k) && g == F(k + 1, j)
    ensures q == SplitCost(p, F, i, j, k) && q < MaxUint64() && q <= Limit(i, j)
  {
    var product := (p[i - 1] * p[k] % INT32) * p[j] % INT32;
    q := ((f + g) % UINT64 + product) % UINT64;
    Exact(p, F, S, l, i, j, k, f, g, product);
  }

  lemma Elsewhere(T: Table, T': Table, i: nat, j: nat, a: nat, b: nat)
    requires Replaced(T, T', i, j) && (a != i || b != j)
    ensures T'(a, b) == T(a, b)
  {
  }

  lemma ReplacedTwice(T: Table, T': Table, T'': Table, i: nat, j: nat)
    requires Replaced(T, T', i, j) && Replaced(T', T'', i, j)
    ensures Replaced(T, T'', i, j)
  {
  }

  lemma Improved(p: seq<nat>, F: Table, i: nat, j: nat, k: nat, best: nat, split: nat, q: nat)
    requires 1 <= i <= k < j < |p| && BestSplit(p, F, i, j, k, best, split) && q == SplitCost(p, F, i, j, k)
    requires q < MaxUint64() && q <= Limit(i, j) && (k > i ==> best <= Limit(i, j))
    ensures if q < best then BestSplit(p, F, i, j, k + 1, q, k)
            else BestSplit(p, F, i, j, k + 1, best, split) && best <= Limit(i, j)
  {
    hide SplitCost, Limit;
  }

  /** Nothing wraps around. */
  lemma Exact(p: seq<nat>, F: Table, S: Table, l: nat, i: nat, j: nat, k: nat, f: nat, g: nat, product: nat)
    requires Bounded(p) && Computed(p, F, S, l, i) && 1 <= i <= k < j < |p| && f == F(i, k) && g == F(k + 1, j)
    requires product == (p[i - 1] * p[k] % INT32) * p[j] % INT32
    ensures ((f + g) % UINT64 + product) % UINT64 == SplitCost(p, F, i, j, k) <= (j - i) * (INT32 - 1)
    ensures SplitCost(p, F, i, j, k) < UINT64 - 1
  {
    var h := i - 1;
    var a, b, c := p[h], p[k], p[j];
    assert Fits(a, b, c);
    Small(a * b, INT32);
    Small(a * b * c, INT32);
    SumFits(f, g, a * b * c, i, j, k, |p|);
    Small(f + g, UINT64);
    Small(f + g + a * b * c, UINT64);
  }

  lemma Small(x: nat, m: nat)
    requires x < m
    ensures x % m == x
  {
  }

  // ----- printing

  datatype Sign = Open | Close | Mat(i: nat)

  /** The printed form of a tree. */
  function Render(t: Tree): seq<Sign> {
    match t
    case Leaf(i) => [Mat(i)]
    case Node(l, r) => [Open] + Render(l) + Render(r) + [Close]
  }

  /** printS. */
  method PrintS(p: seq<nat>, S: array2<nat>, i: nat, j: nat, ghost F: Table) returns (text: seq<Sign>)
    requires S.Length0 == S.Length1 == |p| && Filled(p, F, TableAt(S)) && 1 <= i <= j < |p|
    ensures text == Render(TreeOf(p, F, TableAt(S), i, j))
    decreases j - i
  {
    hide *;
    if i == j {
      TreeIsLeaf(p, F, TableAt(S), i);
      text := [Mat(i)];
    } else {
      TreeSplits(p, F, TableAt(S), i, j);
      var k := Load(S, i, j);
      var left := PrintS(p, S, i, k, F);
      var right := PrintS(p, S, k + 1, j, F);
      text := [Open] + left + right + [Close];
    }
  }

  lemma TreeIsLeaf(p: seq<nat>, F: Table, S: Table, i: nat)
    requires Filled(p, F, S) && 1 <= i < |p|
    ensures Render(TreeOf(p, F, S, i, i)) == [Mat(i)]
  {
  }

  lemma TreeSplits(p: seq<nat>, F: Table, S: Table, i: nat, j: nat)
    requires Filled(p, F, S) && 1 <= i < j < |p|
    ensures i <= S(i, j) < j
    ensures Render(TreeOf(p, F, S, i, j))
            == [Open] + Render(TreeOf(p, F, S, i, S(i, j))) + Render(TreeOf(p, F, S, S(i, j) + 1, j)) + [Close]
  {
    assert Entry(p, F, S, i, j);
  }

  /** The printed form determines the tree, even with more text behind it. */
  lemma {:induction false} RenderIsUnique(t: Tree, u: Tree, rest: seq<Sign>, rest': seq<Sign>)
    requires Render(t) + rest == Render(u) + rest'
    ensures t == u && rest == rest'
    decreases t
  {
    RenderFirst(t);
    RenderFirst(u);
    assert (Render(t) + rest)[0] == Render(t)[0] && (Render(u) + rest')[0] == Render(u)[0];
    match t {
      case Leaf(i) =>
        assert rest == (Render(t) + rest)[1..];
        match u {
          case Leaf(_) => assert rest' == (Render(u) + rest')[1..];
          case Node(_, _) =>
        }
      case Node(l, r) =>
        match u {
          case Leaf(_) =>
          case Node(l', r') =>
            var a, a' := Render(r) + ([Close] + rest), Render(r') + ([Close] + rest');
            assert Render(t) + rest == [Open] + (Render(l) + a);
            assert Render(u) + rest' == [Open] + (Render(l') + a');
            assert Render(l) + a == ([Open] + (Render(l) + a))[1..];
            assert Render(l') + a' == ([Open] + (Render(l') + a'))[1..];
            RenderIsUnique(l, l', a, a');
            RenderIsUnique(r, r', [Close] + rest, [Close] + rest');
            assert rest == ([Close] + rest)[1..] && rest' == ([Close] + rest')[1..];
        }
    }
  }

  lemma RenderFirst(t: Tree)
    ensures Render(t) != [] && Render(t)[0] == if t.Leaf? then Mat(t.i) else Open
  {
  }

  /** The program: what it prints is one parenthesization of all matrices, of the least possible cost. */
  method OptimalOrder(p: seq<nat>) returns (F: array2<nat>, S: array2<nat>, text: seq<Sign>, ghost t: Tree)
    requires Bounded(p)
    ensures text == Render(t) && IsOrder(p, t)
    ensures |p| >= 2 && Filled(p, TableAt(F), TableAt(S)) && t == TreeOf(p, TableAt(F), TableAt(S), 1, |p| - 1)
    ensures F.Length0 == F.Length1 == |p| && F[1, |p| - 1] == OrderCost(p, t)
    ensures forall u :: IsOrder(p, u) ==> OrderCost(p, t) <= OrderCost(p, u)
  {
    var n := |p|;
    F, S := FillTables(p);
    ghost var f, s := TableAt(F), TableAt(S);
    t := TreeOf(p, f, s, 1, n - 1);
    text := PrintS(p, S, 1, n - 1, f);
    BestOrder(p, f, s);
    hide Filled, Render, Covers, TreeOf, OrderCost, IsOrder;
    assert F[1, |p| - 1] == TableAt(F)(1, |p| - 1);
  }

  /** t multiplies the whole chain. */
  ghost predicate IsOrder(p: seq<nat>, t: Tree)
    requires Bounded(p)
  {
    Covers(t, 1, |p| - 1)
  }

  ghost function OrderCost(p: seq<nat>, t: Tree): nat
    requires Bounded(p) && IsOrder(p, t)
  {
    Cost(p, t, 1, |p| - 1)
  }

  lemma BestOrder(p: seq<nat>, F: Table, S: Table)
    requires Bounded(p) && Filled(p, F, S)
    ensures var t := TreeOf(p, F, S, 1, |p| - 1);
            && IsOrder(p, t) && F(1, |p| - 1) == OrderCost(p, t)
            && forall u :: IsOrder(p, u) ==> OrderCost(p, t) <= OrderCost(p, u)
  {
    var t := TreeOf(p, F, S, 1, |p| - 1);
    TreeReachesTable(p, F, S, 1, |p| - 1);
    hide TreeOf, Cost, Filled;
    forall u | IsOrder(p, u) ensures OrderCost(p, t) <= OrderCost(p, u) {
      TreeIsOptimal(p, F, S, 1, |p| - 1, u);
    }
  }
}
