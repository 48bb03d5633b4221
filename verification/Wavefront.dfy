/** The wavefront matrix, and the sequential program that fills it. */
module Wavefront {
  // Cell j of diagonal i lies at row j, column j + i. Values are exact and the cube root is any function f.

  /** Cell j of diagonal i. */
  function W(f: real -> real, n: nat, i: nat, j: nat): real
    requires n > 0
    decreases i, i + 1
  {
    if i == 0 then (j as real + 1.0) / (n as real) else f(DotW(f, n, i, j, i))
  }

  /** The first k products: the cells to the left in the row times the cells below in the column. */
  function DotW(f: real -> real, n: nat, i: nat, j: nat, k: nat): real
    requires n > 0 && k <= i
    decreases i, k
  {
    if k == 0 then 0.0 else DotW(f, n, i, j, k - 1) + W(f, n, i - k, j) * W(f, n, i - k, j + k)
  }

  function Pos(n: nat, i: nat, j: nat): nat {
    j * (n + 1) + i
  }

  lemma PosBound(n: nat, i: nat, j: nat)
    requires i + j < n
    ensures Pos(n, i, j) < n * n
  {
    assert j * (n + 1) == j * n + j;
    Times(j + 1, n, n);
    assert (j + 1) * n == j * n + n;
  }

  lemma Times(a: nat, b: nat, c: nat)
    requires a <= b
    ensures a * c <= b * c
  {
  }

  /** Along the row and down the column. */
  lemma PosShift(n: nat, i: nat, j: nat, k: nat)
    requires k <= i
    ensures Pos(n, i, j) - k == Pos(n, i - k, j)
    ensures Pos(n, i, j) + k * n == Pos(n, i - k, j + k)
  {
    assert (j + k) * (n + 1) == j * (n + 1) + k * (n + 1);
    assert k * (n + 1) == k * n + k;
  }

  lemma PosOrder(n: nat, i: nat, j: nat, i': nat, j': nat)
    requires i <= n && j < j'
    ensures Pos(n, i, j) < Pos(n, i', j')
  {
    Times(j + 1, j', n + 1);
    assert (j + 1) * (n + 1) == j * (n + 1) + (n + 1);
  }

  lemma PosUnique(n: nat, i: nat, j: nat, i': nat, j': nat)
    requires i <= n && i' <= n && Pos(n, i, j) == Pos(n, i', j')
    ensures i == i' && j == j'
  {
    if j < j' { PosOrder(n, i, j, i', j'); }
    if j' < j { PosOrder(n, i', j', i, j); }
  }

  /** p is the place of a cell on or above the main diagonal. */
  ghost predicate Upper(n: nat, p: nat) {
    exists i: nat, j: nat :: i + j < n && Pos(n, i, j) == p
  }

  /** The diagonals before d and the cells `done` of diagonal d hold their values, every other place holds 0. */
  ghost predicate Front(f: real -> real, M: seq<real>, n: nat, d: nat, done: set<nat>) {
    && |M| == n * n
    && (forall i: nat, j: nat :: i + j < n ==>
          Pos(n, i, j) < n * n && M[Pos(n, i, j)] == if i < d || (i == d && j in done) then W(f, n, i, j) else 0.0)
    && (forall p: nat :: p < n * n && !Upper(n, p) ==> M[p] == 0.0)
  }

  /** The diagonals before d hold their cells; all other places hold 0. */
  ghost predicate Filled(f: real -> real, M: seq<real>, n: nat, d: nat) {
    Front(f, M, n, d, {})
  }

  /** A front determines the whole matrix. */
  lemma FrontIsUnique(f: real -> real, M: seq<real>, M': seq<real>, n: nat, d: nat, done: set<nat>)
    requires Front(f, M, n, d, done) && Front(f, M', n, d, done)
    ensures M == M'
  {
    forall p: nat | p < n * n ensures M[p] == M'[p] {
      if Upper(n, p) {
        var i: nat, j: nat :| i + j < n && Pos(n, i, j) == p;
        assert M[Pos(n, i, j)] == M'[Pos(n, i, j)];
      }
    }
  }

  /** One more cell of the diagonal. */
  lemma FrontStep(f: real -> real, M: seq<real>, n: nat, d: nat, done: set<nat>, j: nat, x: real)
    requires Front(f, M, n, d, done) && d + j < n && x == W(f, n, d, j)
    ensures Pos(n, d, j) < n * n && Front(f, M[Pos(n, d, j) := x], n, d, done + {j})
  {
    var p := Pos(n, d, j);
    PosBound(n, d, j);
    var M' := M[p := x];
    forall a: nat, b: nat | a + b < n
      ensures Pos(n, a, b) < n * n
              && M'[Pos(n, a, b)] == if a < d || (a == d && b in done + {j}) then W(f, n, a, b) else 0.0
    {
      assert M[Pos(n, a, b)] == if a < d || (a == d && b in done) then W(f, n, a, b) else 0.0;
      if Pos(n, a, b) == p { PosUnique(n, a, b, d, j); }
    }
    assert Upper(n, p);
  }

  /** A cell that is there already may be written again. */
  lemma FrontAgain(f: real -> real, M: seq<real>, n: nat, d: nat, done: set<nat>, i: nat, j: nat, x: real)
    requires Front(f, M, n, d, done) && i < d && i + j < n && x == W(f, n, i, j)
    ensures Pos(n, i, j) < n * n && M[Pos(n, i, j) := x] == M
  {
    assert M[Pos(n, i, j)] == W(f, n, i, j);
  }

  /** The diagonal is complete. */
  lemma FrontNext(f: real -> real, M: seq<real>, n: nat, d: nat, done: set<nat>)
    requires Front(f, M, n, d, done) && forall j: nat :: d + j < n ==> j in done
    ensures Filled(f, M, n, d + 1)
  {
    forall i: nat, j: nat | i + j < n
      ensures Pos(n, i, j) < n * n && M[Pos(n, i, j)] == if i < d + 1 then W(f, n, i, j) else 0.0
    {
      assert Pos(n, i, j) < n * n && M[Pos(n, i, j)] == if i < d || (i == d && j in done) then W(f, n, i, j) else 0.0;
    }
  }

  lemma FilledBeyond(f: real -> real, M: seq<real>, n: nat, d: nat)
    requires Filled(f, M, n, d) && d >= n
    ensures Filled(f, M, n, n)
  {
    forall i: nat, j: nat | i + j < n ensures Pos(n, i, j) < n * n && M[Pos(n, i, j)] == W(f, n, i, j) {
      assert M[Pos(n, i, j)] == if i < d || (i == d && j in {}) then W(f, n, i, j) else 0.0;
    }
  }

  // ----- what the programs compute for one cell

  /** The first k products as read from the vector. */
  function Dot(M: seq<real>, n: nat, i: nat, j: nat, k: nat): real
    requires |M| == n * n && i + j < n && k <= i
  {
    if k == 0 then 0.0
    else
      PosShift(n, i, j, k);
      PosBound(n, i - k, j);
      PosBound(n, i - k, j + k);
      Dot(M, n, i, j, k - 1) + M[Pos(n, i, j) - k] * M[Pos(n, i, j) + k * n]
  }

  lemma FrontSize(f: real -> real, M: seq<real>, n: nat, d: nat, done: set<nat>)
    requires Front(f, M, n, d, done)
    ensures |M| == n * n
  {
  }

  lemma DotNone(f: real -> real, M: seq<real>, n: nat, i: nat, j: nat)
    requires n > 0 && |M| == n * n && i + j < n
    ensures Dot(M, n, i, j, 0) == DotW(f, n, i, j, 0)
  {
  }

  lemma DotOne(f: real -> real, M: seq<real>, n: nat, i: nat, j: nat, k: nat)
    requires n > 0 && |M| == n * n && i + j < n && 1 <= k <= i
    ensures Pos(n, i - k, j) < n * n && Pos(n, i - k, j + k) < n * n
    ensures Dot(M, n, i, j, k) == Dot(M, n, i, j, k - 1) + M[Pos(n, i - k, j)] * M[Pos(n, i - k, j + k)]
    ensures DotW(f, n, i, j, k) == DotW(f, n, i, j, k - 1) + W(f, n, i - k, j) * W(f, n, i - k, j + k)
  {
    PosShift(n, i, j, k);
    PosBound(n, i - k, j);
    PosBound(n, i - k, j + k);
    DotUnfolds(M, n, i, j, k, Pos(n, i - k, j), Pos(n, i - k, j + k));
    DotWUnfolds(f, n, i, j, k);
    hide *;
  }

  lemma DotWUnfolds(f: real -> real, n: nat, i: nat, j: nat, k: nat)
    requires n > 0 && 1 <= k <= i
    ensures DotW(f, n, i, j, k) == DotW(f, n, i, j, k - 1) + W(f, n, i - k, j) * W(f, n, i - k, j + k)
  {
    hide W;
  }

  lemma DotUnfolds(M: seq<real>, n: nat, i: nat, j: nat, k: nat, a: nat, b: nat)
    requires |M| == n * n && i + j < n && 1 <= k <= i && a < n * n && b < n * n
    requires a == Pos(n, i, j) - k && b == Pos(n, i, j) + k * n
    ensures Dot(M, n, i, j, k) == Dot(M, n, i, j, k - 1) + M[a] * M[b]
  {
    hide Pos;
  }

  lemma FrontCell(f: real -> real, M: seq<real>, n: nat, d: nat, done: set<nat>, i: nat, j: nat)
    requires n > 0 && Front(f, M, n, d, done) && i + j < n && i < d
    ensures Pos(n, i, j) < |M| && M[Pos(n, i, j)] == W(f, n, i, j)
  {
  }

  /** Only cells of earlier diagonals are read. */
  lemma {:induction false} DotIsDotW(f: real -> real, M: seq<real>, n: nat, d: nat,
                                     done: set<nat>, i: nat, j: nat, k: nat)
    requires n > 0 && Front(f, M, n, d, done) && i + j < n && k <= i <= d
    ensures Dot(M, n, i, j, k) == DotW(f, n, i, j, k)
  {
    hide *;
    FrontSize(f, M, n, d, done);
    if k == 0 {
      DotNone(f, M, n, i, j);
    } else {
      DotIsDotW(f, M, n, d, done, i, j, k - 1);
      FrontCell(f, M, n, d, done, i - k, j);
      FrontCell(f, M, n, d, done, i - k, j + k);
      DotOne(f, M, n, i, j, k);
    }
  }

  /** What a program computes for a cell of a diagonal is the cell, once the earlier diagonals are there. */
  lemma CellIsW(f: real -> real, M: seq<real>, n: nat, d: nat, done: set<nat>, i: nat, j: nat)
    requires n > 0 && Front(f, M, n, d, done) && i + j < n && 1 <= i <= d
    ensures f(Dot(M, n, i, j, i)) == W(f, n, i, j)
  {
    DotIsDotW(f, M, n, d, done, i, j, i);
  }

  /** The dot product and cube root of one cell. */
  method ComputeCell(f: real -> real, M: array<real>, n: nat, i: nat, j: nat) returns (dp: real)
    requires M.Length == n * n && i + j < n
    ensures dp == f(Dot(M[..], n, i, j, i))
  {
    var vectPos := j * (n + 1) + i;
    dp := 0.0;
    for k := 0 to i
      invariant dp == Dot(M[..], n, i, j, k)
    {
      PosShift(n, i, j, k + 1);
      PosBound(n, i - (k + 1), j);
      PosBound(n, i - (k + 1), j + (k + 1));
      assert vectPos - k - 1 == Pos(n, i, j) - (k + 1);
      dp := dp + M[vectPos - k - 1] * M[vectPos + (k + 1) * n];
    }
    dp := f(dp);
  }

  function Below(j: nat): (s: set<nat>)
    ensures forall x: nat :: x in s <==> x < j
  {
    if j == 0 then {} else Below(j - 1) + {j - 1}
  }

  /** The main diagonal. */
  method InitMatrix(f: real -> real, n: nat) returns (M: array<real>)
    ensures fresh(M) && M.Length == n * n && Filled(f, M[..], n, 1)
  {
    M := new real[n * n](_ => 0.0);
    if n == 0 {
      NoCells(f, M[..], 1);
      return;
    }
    NothingYet(f, M[..], n);
    hide Front, Filled, W;
    for i := 0 to n
      invariant Front(f, M[..], n, 0, Below(i))
    {
      PosBound(n, 0, i);
      assert i * n + i == Pos(n, 0, i);
      ghost var before := M[..];
      M[i * n + i] := (i as real + 1.0) / (n as real);
      DiagonalIs(f, n, i);
      FrontStep(f, before, n, 0, Below(i), i, W(f, n, 0, i));
      assert M[..] == before[Pos(n, 0, i) := W(f, n, 0, i)];
      assert Below(i) + {i} == Below(i + 1);
    }
    FrontNext(f, M[..], n, 0, Below(n));
  }

  lemma DiagonalIs(f: real -> real, n: nat, i: nat)
    requires n > 0
    ensures W(f, n, 0, i) == (i as real + 1.0) / (n as real)
  {
  }

  lemma NothingYet(f: real -> real, M: seq<real>, n: nat)
    requires |M| == n * n && forall p :: 0 <= p < n * n ==> M[p] == 0.0
    ensures Front(f, M, n, 0, Below(0))
  {
    forall i: nat, j: nat | i + j < n ensures Pos(n, i, j) < n * n { PosBound(n, i, j); }
  }

  /** Computes the diagonals from `from` to before `to` in place, cell by cell. Diagonals that are there already
      stay as they are; but a start at diagonal 0 overwrites the main diagonal with f(0). */
  method FillInPlace(f: real -> real, M: array<real>, n: nat, from: nat, to: nat, ghost d: nat)
    requires M.Length == n * n && from <= to <= n + 1
    requires from >= 1 ==> from <= d && Filled(f, M[..], n, d)
    modifies M
    ensures from >= 1 ==> Filled(f, M[..], n, if d < to then to else d)
    ensures from == 0 && to > 0 && n > 0 ==> M.Length > 0 && M[0] == f(0.0)
  {
    var diagSize: int := n - from;
    for i := from to to
      invariant diagSize == n - i
      invariant from >= 1 ==> Filled(f, M[..], n, if d < i then i else d)
      invariant from == 0 && i > 0 && n > 0 ==> M.Length > 0 && M[0] == f(0.0)
    {
      FillDiagonal(f, M, n, i, diagSize, if d < i then i else d, from >= 1);
      diagSize := diagSize - 1;
    }
  }

  method FillDiagonal(f: real -> real, M: array<real>, n: nat, i: nat, diagSize: int, ghost d: nat, ghost inOrder: bool)
    requires M.Length == n * n && diagSize == n - i && i <= n
    requires inOrder ==> 1 <= i <= d && Filled(f, M[..], n, d)
    modifies M
    ensures inOrder ==> Filled(f, M[..], n, if d == i then i + 1 else d)
    ensures n > 0 ==> M.Length > 0 && M[0] == if i == 0 then f(0.0) else old(M[..])[0]
  {
    ghost var done := {};
    if n > 0 { FirstCell(n); }
    ghost var corner := if n > 0 then M[0] else 0.0;
    for j := 0 to diagSize
      invariant done == if d == i then Below(j) else {}
      invariant inOrder ==> Front(f, M[..], n, d, done)
      invariant n > 0 ==> M[0] == if i == 0 && j > 0 then f(0.0) else corner
    {
      ghost var before := M[..];
      var dp := ComputeCell(f, M, n, i, j);
      PosBound(n, i, j);
      CornerOnly(n, i, j);
      if i == 0 { DotEmpty(before, n, j); }
      hide Front, W, Dot, Filled;
      M[j * (n + 1) + i] := dp;
      assert M[..] == before[Pos(n, i, j) := dp];
      if inOrder {
        CellIsW(f, before, n, d, done, i, j);
        if d == i {
          FrontStep(f, before, n, d, done, j, dp);
        } else {
          FrontAgain(f, before, n, d, done, i, j, dp);
        }
      }
      done := if d == i then done + {j} else done;
    }
    if inOrder && d == i { FrontNext(f, M[..], n, d, done); }
  }

  lemma FirstCell(n: nat)
    requires n > 0
    ensures 1 <= n * n
  {
  }

  lemma DotEmpty(M: seq<real>, n: nat, j: nat)
    requires |M| == n * n && j < n
    ensures Dot(M, n, 0, j, 0) == 0.0
  {
  }

  lemma CornerOnly(n: nat, i: nat, j: nat)
    ensures Pos(n, i, j) == 0 <==> i == 0 && j == 0
  {
    if j > 0 { Times(1, j, n + 1); }
  }

  /** Wf_seq.cpp. */
  method WavefrontSequential(f: real -> real, n: nat) returns (M: array<real>)
    ensures M.Length == n * n && Filled(f, M[..], n, n)
  {
    M := InitMatrix(f, n);
    if n == 0 {
      NoCells(f, M[..], 0);
      return;
    }
    FillInPlace(f, M, n, 1, n, 1);
  }

  lemma NoCells(f: real -> real, M: seq<real>, d: nat)
    requires |M| == 0
    ensures Filled(f, M, 0, d)
  {
  }
}
