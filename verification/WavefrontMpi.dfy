/** The distributed version of the wavefront. */
module WavefrontMpi {
  // All ranks run the same program on their own copy of the matrix; on the middle diagonals each computes one block of
  // cells, and an allgather gives every rank all blocks.

  import opened Wavefront
  import opened Wrappers

  function Flatten(ls: seq<seq<real>>): seq<real> {
    if ls == [] then [] else ls[0] + Flatten(ls[1..])
  }

  /** Allgather puts the block of rank q behind those of the ranks before it. */
  lemma {:induction false} FlattenAt(ls: seq<seq<real>>, size: nat, q: nat, t: nat)
    requires (forall r :: 0 <= r < |ls| ==> |ls[r]| == size) && q < |ls| && t < size
    ensures |Flatten(ls)| == |ls| * size && q * size + t < |ls| * size && Flatten(ls)[q * size + t] == ls[q][t]
    decreases q
  {
    FlattenLen(ls, size);
    Times(q + 1, |ls|, size);
    assert (q + 1) * size == q * size + size;
    if q > 0 {
      FlattenAt(ls[1..], size, q - 1, t);
      assert (q - 1) * size + t + size == q * size + t;
    }
  }

  lemma {:induction false} FlattenLen(ls: seq<seq<real>>, size: nat)
    requires forall r :: 0 <= r < |ls| ==> |ls[r]| == size
    ensures |Flatten(ls)| == |ls| * size
  {
    if ls != [] { FlattenLen(ls[1..], size); }
  }

  /** The blocks hold the cells of diagonal i, block after block. */
  ghost predicate Blocks(f: real -> real, n: nat, i: nat, ls: seq<seq<real>>, size: nat, m: nat)
    requires n > 0
  {
    && (forall q :: 0 <= q < |ls| ==> |ls[q]| == size)
    && (forall q, t :: 0 <= q < |ls| && 0 <= t < size && q * size + t < m ==> ls[q][t] == W(f, n, i, q * size + t))
  }

  /** What one rank computes of diagonal i before the allgather. */
  method LocalValues(f: real -> real, M: array<real>, n: nat, i: nat, mpiSize: nat, rank: nat, diagSize: nat)
    returns (localValues: seq<real>)
    requires n > 0 && M.Length == n * n && 1 <= i < n && diagSize == n - i && rank < mpiSize && Filled(f, M[..], n, i)
    ensures var size := diagSize / mpiSize + 1;
            |localValues| == size
                && forall t :: 0 <= t < size && rank * size + t < diagSize ==>
                   localValues[t] == W(f, n, i, rank * size + t)
  {
    var taskSize := diagSize / mpiSize + 1;
    var from := rank * taskSize;
    assert (rank + 1) * taskSize == from + taskSize;
    var to := if (rank + 1) * taskSize < diagSize then (rank + 1) * taskSize else diagSize;
    localValues := LocalBlock(f, M, n, i, from, to, taskSize);
  }

  /** The cells from..to of diagonal i. */
  method LocalBlock(f: real -> real, M: array<real>, n: nat, i: nat, from: nat, to: nat, taskSize: nat)
    returns (localValues: seq<real>)
    requires n > 0 && M.Length == n * n && 1 <= i < n && to <= n - i && to <= from + taskSize && Filled(f, M[..], n, i)
    ensures |localValues| == taskSize
            && forall t :: 0 <= t < taskSize && from + t < to ==> localValues[t] == W(f, n, i, from + t)
  {
    hide *;
    var local := new real[taskSize](_ => 0.0);
    var j := from;
    while j < to
      invariant from <= j && (from < to ==> j <= to)
      invariant forall t :: 0 <= t < taskSize && from + t < j ==> local[t] == W(f, n, i, from + t)
      invariant Filled(f, M[..], n, i)
    {
      var dp := ComputeCell(f, M, n, i, j);
      FilledCell(f, M[..], n, i, j);
      local[j - from] := dp;
      j := j + 1;
    }
    localValues := local[..];
  }

  lemma FilledCell(f: real -> real, M: seq<real>, n: nat, i: nat, j: nat)
    requires n > 0 && Filled(f, M, n, i) && i + j < n && 1 <= i
    ensures |M| == n * n && f(Dot(M, n, i, j, i)) == W(f, n, i, j)
  {
    CellIsW(f, M, n, i, {}, i, j);
  }

  /** The gathered cells go into the diagonal. */
  method WriteDiagonal(f: real -> real, M: array<real>, n: nat, i: nat, diagValues: seq<real>, diagSize: nat)
    requires n > 0 && M.Length == n * n && 1 <= i < n && diagSize == n - i && Filled(f, M[..], n, i)
    requires |diagValues| >= diagSize && forall j :: 0 <= j < diagSize ==> diagValues[j] == W(f, n, i, j)
    modifies M
    ensures Filled(f, M[..], n, i + 1)
  {
    for j := 0 to diagSize
      invariant Front(f, M[..], n, i, Below(j))
    {
      hide *;
      ghost var before := M[..];
      FrontStep(f, before, n, i, Below(j), j, diagValues[j]);
      PlaceIs(n, i, j);
      M[j * (n + 1) + i] := diagValues[j];
      assert M[..] == before[Pos(n, i, j) := diagValues[j]];
      BelowNext(j);
    }
    FrontNext(f, M[..], n, i, Below(diagSize));
  }

  lemma PlaceIs(n: nat, i: nat, j: nat)
    ensures Pos(n, i, j) == j * (n + 1) + i
  {
  }

  lemma BelowNext(j: nat)
    ensures Below(j) + {j} == Below(j + 1)
  {
  }

  lemma GatheredCells(f: real -> real, n: nat, i: nat, ls: seq<seq<real>>, size: nat, m: nat)
    requires n > 0 && |ls| > 0 && size == m / |ls| + 1 && Blocks(f, n, i, ls, size, m)
    ensures |Flatten(ls)| >= m && forall j :: 0 <= j < m ==> Flatten(ls)[j] == W(f, n, i, j)
  {
    FlattenLen(ls, size);
    Enough(m, |ls|, size);
    forall j | 0 <= j < m ensures Flatten(ls)[j] == W(f, n, i, j) {
      var q, t := j / size, j % size;
      Enough(m, |ls|, size);
      BlockOf(j, |ls|, size);
      FlattenAt(ls, size, q, t);
    }
  }

  lemma Enough(m: nat, p: nat, size: nat)
    requires p > 0 && size == m / p + 1
    ensures m < p * size
  {
    assert m == p * (m / p) + m % p;
    assert p * size == p * (m / p) + p;
  }

  lemma BlockOf(j: nat, p: nat, size: nat)
    requires size > 0 && j < p * size
    ensures 0 <= j / size < p && j == (j / size) * size + j % size
  {
    if j / size >= p { Times(p, j / size, size); }
  }

  ghost predicate Distinct(ms: seq<array<real>>) {
    forall q, r :: 0 <= q < r < |ms| ==> ms[q] != ms[r]
  }

  ghost predicate AllFilled(f: real -> real, ms: seq<array<real>>, n: nat, d: nat)
    reads set q | 0 <= q < |ms| :: ms[q]
  {
    forall q :: 0 <= q < |ms| ==> ms[q].Length == n * n && Filled(f, ms[q][..], n, d)
  }

  // ----- the first phase, with its 64-bit counter and every access to the vector checked

  const WORD: nat := 0x1_0000_0000_0000_0000

  function Word(x: int): nat {
    x % WORD
  }

  /** The first index outside that diagonal N + 1 reads: in its cell 0, product by product, left before below. */
  function FirstOutside(n: nat): nat {
    if n <= 1 then n else n * n + 1
  }

  lemma RowsBelow(n: nat, k: nat)
    requires n >= 2 && k + 2 <= n
    ensures n - k < n * n
    ensures n + 1 + (k + 1) * n >= n * n <==> k + 2 == n
    ensures k + 2 == n ==> n + 1 + (k + 1) * n == n * n + 1
  {
    assert (k + 1) * n + n == (k + 2) * n;
    if k + 2 < n {
      Times(k + 3, n, n);
      assert (k + 3) * n == (k + 2) * n + n;
    }
    Times(2, n, n);
  }

  /** The products of cell 0 behind the last diagonal end before product n - 1. */
  ghost predicate Reached(n: nat, i: nat, j: nat, k: nat) {
    i == n + 1 && j == 0 ==> if n <= 1 then k == 0 else k + 2 <= n
  }

  lemma InsideBoth(n: nat, i: nat, j: nat, k: nat, left: int, down: int)
    requires i + j < n && k < i && left == j * (n + 1) + i - k - 1 && down == j * (n + 1) + i + (k + 1) * n
    ensures left == Pos(n, i, j) - (k + 1) && down == Pos(n, i, j) + (k + 1) * n
    ensures 0 <= left < n * n && 0 <= down < n * n
  {
    PosShift(n, i, j, k + 1);
    PosBound(n, i - (k + 1), j);
    PosBound(n, i - (k + 1), j + (k + 1));
  }

  lemma OutsideNext(n: nat, k: nat, left: int, down: int)
    requires Reached(n, n + 1, 0, k) && left == n - k && down == n + 1 + (k + 1) * n
    ensures left >= n * n ==> left == FirstOutside(n)
    ensures left < n * n && down >= n * n ==> down == FirstOutside(n)
    ensures left < n * n && down < n * n ==> Reached(n, n + 1, 0, k + 1)
  {
    if n >= 2 { RowsBelow(n, k); }
  }

  lemma Products(M: seq<real>, n: nat, i: nat, j: nat)
    requires |M| == n * n && i + j < n
    ensures Dot(M, n, i, j, 0) == 0.0
  {
  }

  lemma ReachedStart(n: nat, i: nat, j: nat)
    ensures Reached(n, i, j, 0) && j * (n + 1) >= 0
    ensures !(i == n + 1 && j == 0) ==> forall k: nat :: Reached(n, i, j, k)
  {
  }

  lemma StillReached(n: nat, i: nat, j: nat, k: nat, left: int, down: int)
    requires k < i && Reached(n, i, j, k)
    requires left == j * (n + 1) + i - k - 1 && down == j * (n + 1) + i + (k + 1) * n
    ensures left >= 0 && down >= 0
    ensures i == n + 1 && j == 0 && left >= n * n ==> left == FirstOutside(n)
    ensures i == n + 1 && j == 0 && left < n * n && down >= n * n ==> down == FirstOutside(n)
    ensures left < n * n && down < n * n ==> Reached(n, i, j, k + 1)
  {
    hide *;
    ReachedStart(n, i, j);
    assert j * (n + 1) >= 0 && (k + 1) * n >= 0;
    if i == n + 1 && j == 0 { OutsideNext(n, k, left, down); }
  }

  /** One cell; stops at an index outside. Inside the matrix there is none; behind its last diagonal there is. */
  method CheckedCell(f: real -> real, M: array<real>, n: nat, i: nat, j: nat) returns (outside: Option<nat>, dp: real)
    requires M.Length == n * n && 1 <= i
    ensures i + j < n ==> outside == None && dp == f(Dot(M[..], n, i, j, i))
    ensures i == n + 1 && j == 0 ==> outside == Some(FirstOutside(n))
  {
    hide *;
    var vectPos := j * (n + 1) + i;
    outside, dp := None, 0.0;
    ReachedStart(n, i, j);
    if i + j < n { Products(M[..], n, i, j); }
    for k := 0 to i
      invariant i + j < n ==> dp == Dot(M[..], n, i, j, k)
      invariant Reached(n, i, j, k)
    {
      var left, down := vectPos - k - 1, vectPos + (k + 1) * n;
      StillReached(n, i, j, k, left, down);
      if i + j < n { InsideBoth(n, i, j, k, left, down); }
      if left >= M.Length { return Some(left), dp; }
      if down >= M.Length { return Some(down), dp; }
      if i + j < n { DotUnfolds(M[..], n, i, j, k + 1, left, down); }
      dp := dp + M[left] * M[down];
    }
    EndReached(n, i, j);
    dp := f(dp);
  }

  /** Cell 0 behind the last diagonal does not come to its end. */
  lemma EndReached(n: nat, i: nat, j: nat)
    requires 1 <= i && Reached(n, i, j, i)
    ensures !(i == n + 1 && j == 0)
  {
  }

  method CheckedDiagonal(f: real -> real, M: array<real>, n: nat, i: nat, diagSize: nat) returns (outside: Option<nat>)
    requires M.Length == n * n && n < WORD && 1 <= i <= n + 1 && diagSize == Word(n - i) && Filled(f, M[..], n, i)
    modifies M
    ensures i <= n ==> outside == None && Filled(f, M[..], n, i + 1)
    ensures i == n + 1 ==> outside == Some(FirstOutside(n))
  {
    outside := None;
    for j := 0 to diagSize
      invariant i <= n ==> diagSize == n - i
      invariant i == n + 1 ==> diagSize > 0 && j == 0
      invariant outside == None && Front(f, M[..], n, i, Below(j))
    {
      var dp;
      outside, dp := CheckedCell(f, M, n, i, j);
      if outside.Some? { return; }
      hide *;
      ghost var before := M[..];
      CellIsW(f, before, n, i, Below(j), i, j);
      FrontStep(f, before, n, i, Below(j), j, dp);
      PlaceIs(n, i, j);
      M[j * (n + 1) + i] := dp;
      assert M[..] == before[Pos(n, i, j) := dp];
      BelowNext(j);
    }
    if i <= n { FrontNext(f, M[..], n, i, Below(diagSize)); }
  }

  lemma WordStep(n: nat, i: nat)
    requires 1 <= i <= n && n < WORD
    ensures Word(Word(n - i) - 1) == Word(n - (i + 1))
  {
    assert Word(n - i) == n - i;
  }

  /** The diagonals before `low` in place. With diagonal N the counter is at 0 and wraps. */
  method FirstPhase(f: real -> real, M: array<real>, n: nat, low: nat) returns (outside: Option<nat>)
    requires M.Length == n * n && n < WORD && 1 <= low && Filled(f, M[..], n, 1)
    modifies M
    ensures low <= n + 1 ==> outside == None && Filled(f, M[..], n, low)
    ensures low > n + 1 ==> outside == Some(FirstOutside(n))
  {
    hide *;
    outside := None;
    var diagSize: int := Word(n - 1);
    var i := 1;
    while i < low
      invariant 1 <= i <= low && i <= n + 1 && diagSize == Word(n - i)
      invariant outside == None && Filled(f, M[..], n, i)
    {
      outside := CheckedDiagonal(f, M, n, i, diagSize);
      if outside.Some? { return; }
      WordStep(n, i);
      diagSize := Word(diagSize - 1);
      i := i + 1;
    }
  }

  /** All ranks do the same to their own copies. */
  method AllInPlace(f: real -> real, ms: seq<array<real>>, n: nat, low: nat) returns (outside: Option<nat>)
    requires |ms| > 0 && Distinct(ms) && AllFilled(f, ms, n, 1) && n < WORD && 1 <= low
    modifies set q | 0 <= q < |ms| :: ms[q]
    ensures low <= n + 1 ==> outside == None && AllFilled(f, ms, n, low)
    ensures low > n + 1 ==> outside == Some(FirstOutside(n))
  {
    hide FirstOutside;
    outside := None;
    for q := 0 to |ms|
      invariant forall r :: 0 <= r < |ms| ==> ms[r].Length == n * n
      invariant forall r :: 0 <= r < |ms| ==> Filled(f, ms[r][..], n, if r < q then low else 1)
      invariant outside == None && (q > 0 ==> low <= n + 1)
    {
      hide Filled;
      outside := FirstPhase(f, ms[q], n, low);
      if outside.Some? { return; }
      forall r | 0 <= r < |ms| && r != q ensures ms[r] != ms[q] { assert r < q || q < r; }
    }
  }

  /** The blocks of all ranks. */
  method AllLocal(f: real -> real, ms: seq<array<real>>, n: nat, i: nat, diagSize: nat) returns (ls: seq<seq<real>>)
    requires n > 0 && |ms| > 0 && AllFilled(f, ms, n, i) && 1 <= i < n && diagSize == n - i
    ensures |ls| == |ms| && Blocks(f, n, i, ls, diagSize / |ms| + 1, diagSize)
  {
    ls := [];
    for q := 0 to |ms|
      invariant |ls| == q && Blocks(f, n, i, ls, diagSize / |ms| + 1, diagSize)
    {
      hide Filled, W;
      var local := LocalValues(f, ms[q], n, i, |ms|, q, diagSize);
      ls := ls + [local];
    }
  }

  method AllWrite(f: real -> real, ms: seq<array<real>>, n: nat, i: nat, diagSize: nat, ls: seq<seq<real>>)
    requires n > 0 && |ms| > 0 && Distinct(ms) && AllFilled(f, ms, n, i) && 1 <= i < n && diagSize == n - i
    requires |ls| == |ms| && Blocks(f, n, i, ls, diagSize / |ms| + 1, diagSize)
    modifies set q | 0 <= q < |ms| :: ms[q]
    ensures AllFilled(f, ms, n, i + 1)
  {
    GatheredCells(f, n, i, ls, diagSize / |ms| + 1, diagSize);
    var diagValues := Flatten(ls);
    for q := 0 to |ms|
      invariant forall r :: 0 <= r < |ms| ==>
                ms[r].Length == n * n && Filled(f, ms[r][..], n, if r < q then i + 1 else i)
    {
      hide Filled, W;
      WriteDiagonal(f, ms[q], n, i, diagValues, diagSize);
      forall r | 0 <= r < |ms| && r != q ensures ms[r] != ms[q] { assert r < q || q < r; }
    }
  }

  /** The middle diagonals, one collective exchange each. */
  method AllDistributed(f: real -> real, ms: seq<array<real>>, n: nat, low: nat, up: int)
    requires |ms| > 0 && Distinct(ms) && AllFilled(f, ms, n, low) && 1 <= low && up <= n
    modifies set q | 0 <= q < |ms| :: ms[q]
    ensures AllFilled(f, ms, n, if low < up then up else low)
  {
    var diagSize: int := n - low;
    var i := low;
    while i < up
      invariant low <= i && (low < up ==> i <= up) && (up <= low ==> i == low) && diagSize == n - i
      invariant AllFilled(f, ms, n, i)
    {
      hide AllFilled, Blocks;
      var ls := AllLocal(f, ms, n, i, diagSize);
      AllWrite(f, ms, n, i, diagSize, ls);
      diagSize := diagSize - 1;
      i := i + 1;
    }
  }

  method AllInit(f: real -> real, n: nat, mpiSize: nat) returns (ms: seq<array<real>>)
    ensures |ms| == mpiSize && Distinct(ms) && AllFilled(f, ms, n, 1) && forall q :: 0 <= q < |ms| ==> fresh(ms[q])
  {
    ms := [];
    for q := 0 to mpiSize
      invariant |ms| == q && Distinct(ms) && AllFilled(f, ms, n, 1) && forall r :: 0 <= r < |ms| ==> fresh(ms[r])
    {
      hide Filled;
      var M := InitMatrix(f, n);
      ms := ms + [M];
    }
  }

  /** Wf_mpi.cpp. With more than N + 1 ranks the first phase leaves the vector, with up to N + 1 nothing does. Then the
      matrix of rank 0 is the sequential one exactly if there are at least as many diagonals as ranks: with one rank
      more than diagonals the last phase starts at diagonal 0 and overwrites the main diagonal. */
  method WavefrontDistributed(f: real -> real, n: nat, mpiSize: nat) returns (outside: Option<nat>, M: array<real>)
    requires 1 <= mpiSize && n < WORD && f(0.0) == 0.0
    ensures M.Length == n * n
    ensures outside == if mpiSize <= n + 1 then None else Some(FirstOutside(n))
    ensures outside == None ==> (Filled(f, M[..], n, n) <==> n >= mpiSize || n == 0)
  {
    var ms := AllInit(f, n, mpiSize);
    M := ms[0];
    outside := AllInPlace(f, ms, n, mpiSize);
    if outside.Some? { return; }
    var low: nat, up: nat := mpiSize, n - (mpiSize - 1);
    AllDistributed(f, ms, n, low, up);
    hide W, FirstOutside;
    FillInPlace(f, M, n, up, n, if low < up then up else low);
    if n >= mpiSize {
      FilledBeyond(f, M[..], n, if low < up then (if up < n then n else up) else if low < n then n else low);
    } else if n == 0 {
      NoCells(f, M[..], 0);
    } else {
      CornerLost(f, M[..], n);
    }
  }

  lemma CornerValue(f: real -> real, n: nat)
    requires n > 0
    ensures W(f, n, 0, 0) != 0.0
  {
    assert (n as real) * W(f, n, 0, 0) == 1.0;
  }

  lemma CornerIsW(f: real -> real, M: seq<real>, n: nat)
    requires n > 0 && |M| > 0 && Filled(f, M, n, n)
    ensures M[0] == W(f, n, 0, 0)
  {
    CornerOnly(n, 0, 0);
    assert M[Pos(n, 0, 0)] == W(f, n, 0, 0);
  }

  lemma CornerLost(f: real -> real, M: seq<real>, n: nat)
    requires n > 0 && |M| == n * n && |M| > 0 && M[0] == 0.0
    ensures !Filled(f, M, n, n)
  {
    hide *;
    CornerValue(f, n);
    if Filled(f, M, n, n) { CornerIsW(f, M, n); }
  }
}
