/** Strassen's matrix product by divide and combine on strided views. */
module Strassen {
  // Matrices are square views into arrays: an offset and a row stride. Entries are exact numbers; sizes up to the
  // cutoff are multiplied by the classical triple loop.

  import opened Arith
  import Bits

  const CUTOFF := 128

  type Matrix = (nat, nat) -> int

  /** Entry (i, j) of the product, from the first k terms. */
  function Dot(A: Matrix, B: Matrix, i: nat, j: nat, k: nat): int {
    if k == 0 then 0 else Dot(A, B, i, j, k - 1) + A(i, k - 1) * B(k - 1, j)
  }

  /** The ordinary product of n by n matrices. */
  function Product(A: Matrix, B: Matrix, n: nat): Matrix {
    (i: nat, j: nat) => Dot(A, B, i, j, n)
  }

  function Plus(A: Matrix, B: Matrix): Matrix {
    (i: nat, j: nat) => A(i, j) + B(i, j)
  }

  function Minus(A: Matrix, B: Matrix): Matrix {
    (i: nat, j: nat) => A(i, j) - B(i, j)
  }

  /** The submatrix that begins at row r and column c. */
  function Sub(A: Matrix, r: nat, c: nat): Matrix {
    (i: nat, j: nat) => A(r + i, c + j)
  }

  function Unit(): Matrix {
    (i: nat, j: nat) => if i == j then 1 else 0
  }

  /** The unit matrix changes nothing, from either side. */
  lemma {:induction false} UnitIsNeutral(A: Matrix, i: nat, j: nat, k: nat)
    ensures Dot(Unit(), A, i, j, k) == if i < k then A(i, j) else 0
    ensures Dot(A, Unit(), i, j, k) == if j < k then A(i, j) else 0
  {
    if k > 0 { UnitIsNeutral(A, i, j, k - 1); }
  }

  lemma {:induction false} DotPlusLeft(A: Matrix, A': Matrix, B: Matrix, i: nat, j: nat, k: nat)
    ensures Dot(Plus(A, A'), B, i, j, k) == Dot(A, B, i, j, k) + Dot(A', B, i, j, k)
    ensures Dot(Minus(A, A'), B, i, j, k) == Dot(A, B, i, j, k) - Dot(A', B, i, j, k)
  {
    if k > 0 {
      DotPlusLeft(A, A', B, i, j, k - 1);
      Bits.DistributeRight(A(i, k - 1), A'(i, k - 1), B(k - 1, j));
      Bits.DistributeRight(A(i, k - 1), -A'(i, k - 1), B(k - 1, j));
      Negate(A'(i, k - 1), B(k - 1, j));
    }
  }

  lemma Negate(a: int, b: int)
    ensures (-a) * b == -(a * b) && b * (-a) == -(b * a)
  {
  }

  lemma {:induction false} DotPlusRight(A: Matrix, B: Matrix, B': Matrix, i: nat, j: nat, k: nat)
    ensures Dot(A, Plus(B, B'), i, j, k) == Dot(A, B, i, j, k) + Dot(A, B', i, j, k)
    ensures Dot(A, Minus(B, B'), i, j, k) == Dot(A, B, i, j, k) - Dot(A, B', i, j, k)
  {
    if k > 0 {
      DotPlusRight(A, B, B', i, j, k - 1);
      Distribute(A(i, k - 1), B(k - 1, j), B'(k - 1, j));
      Distribute(A(i, k - 1), B(k - 1, j), -B'(k - 1, j));
      Negate(B'(k - 1, j), A(i, k - 1));
    }
  }

  /** A product of matrices of twice the size, block by block. */
  lemma {:induction false} DotHalves(A: Matrix, B: Matrix, r: nat, c: nat, i: nat, j: nat, m: nat, k: nat)
    ensures Dot(A, B, r + i, c + j, m + k)
            == Dot(Sub(A, r, 0), Sub(B, 0, c), i, j, m) + Dot(Sub(A, r, m), Sub(B, m, c), i, j, k)
    decreases m + k
  {
    if k > 0 {
      DotHalves(A, B, r, c, i, j, m, k - 1);
      assert Dot(A, B, r + i, c + j, m + k)
             == Dot(A, B, r + i, c + j, m + (k - 1)) + A(r + i, m + (k - 1)) * B(m + (k - 1), c + j);
    } else if m > 0 {
      DotHalves(A, B, r, c, i, j, m - 1, 0);
    }
  }

  /** The seven products of the four blocks of each operand. */
  function P1(A11: Matrix, A22: Matrix, B11: Matrix, B22: Matrix, m: nat): Matrix
  {
    Product(Plus(A11, A22), Plus(B11, B22), m)
  }
  function P2(A21: Matrix, A22: Matrix, B11: Matrix, m: nat): Matrix { Product(Plus(A21, A22), B11, m) }
  function P3(A11: Matrix, B12: Matrix, B22: Matrix, m: nat): Matrix { Product(A11, Minus(B12, B22), m) }
  function P4(A22: Matrix, B21: Matrix, B11: Matrix, m: nat): Matrix { Product(A22, Minus(B21, B11), m) }
  function P5(A11: Matrix, A12: Matrix, B22: Matrix, m: nat): Matrix { Product(Plus(A11, A12), B22, m) }
  function P6(A21: Matrix, A11: Matrix, B11: Matrix, B12: Matrix, m: nat): Matrix
  {
    Product(Minus(A21, A11), Plus(B11, B12), m)
  }
  function P7(A12: Matrix, A22: Matrix, B21: Matrix, B22: Matrix, m: nat): Matrix
  {
    Product(Minus(A12, A22), Plus(B21, B22), m)
  }

  lemma PlusTimesPlus(A: Matrix, A': Matrix, B: Matrix, B': Matrix, i: nat, j: nat, m: nat)
    ensures Dot(Plus(A, A'), Plus(B, B'), i, j, m)
            == Dot(A, B, i, j, m) + Dot(A, B', i, j, m) + Dot(A', B, i, j, m) + Dot(A', B', i, j, m)
    ensures Dot(Minus(A, A'), Plus(B, B'), i, j, m)
            == Dot(A, B, i, j, m) + Dot(A, B', i, j, m) - Dot(A', B, i, j, m) - Dot(A', B', i, j, m)
  {
    DotPlusLeft(A, A', Plus(B, B'), i, j, m);
    DotPlusRight(A, B, B', i, j, m);
    DotPlusRight(A', B, B', i, j, m);
  }

  /** Strassen's identities, entry by entry. */
  lemma SevenProducts(A11: Matrix, A12: Matrix, A21: Matrix, A22: Matrix, B11: Matrix, B12: Matrix, B21: Matrix,
                      B22: Matrix, i: nat, j: nat, m: nat)
    ensures P1(A11, A22, B11, B22, m)(i, j) + P4(A22, B21, B11, m)(i, j) - P5(A11, A12, B22, m)(i, j)
            + P7(A12, A22, B21, B22, m)(i, j)
            == Dot(A11, B11, i, j, m) + Dot(A12, B21, i, j, m)
    ensures P3(A11, B12, B22, m)(i, j) + P5(A11, A12, B22, m)(i, j) == Dot(A11, B12, i, j, m) + Dot(A12, B22, i, j, m)
    ensures P2(A21, A22, B11, m)(i, j) + P4(A22, B21, B11, m)(i, j) == Dot(A21, B11, i, j, m) + Dot(A22, B21, i, j, m)
    ensures P1(A11, A22, B11, B22, m)(i, j) - P2(A21, A22, B11, m)(i, j) + P3(A11, B12, B22, m)(i, j)
            + P6(A21, A11, B11, B12, m)(i, j)
            == Dot(A21, B12, i, j, m) + Dot(A22, B22, i, j, m)
  {
    PlusTimesPlus(A11, A22, B11, B22, i, j, m);
    DotPlusLeft(A21, A22, B11, i, j, m);
    DotPlusRight(A11, B12, B22, i, j, m);
    DotPlusRight(A22, B21, B11, i, j, m);
    DotPlusLeft(A11, A12, B22, i, j, m);
    PlusTimesPlus(A21, A11, B11, B12, i, j, m);
    PlusTimesPlus(A12, A22, B21, B22, i, j, m);
    hide Dot, Plus, Minus;
  }

  // ----- sizes

  /** A size that halves without a rest down to the cutoff. */
  predicate Halvable(n: nat) {
    n <= CUTOFF || (n % 2 == 0 && Halvable(n / 2))
  }

  lemma {:induction false} PowersAreHalvable(e: nat)
    ensures Halvable(Pow2(e))
  {
    if e > 0 { PowersAreHalvable(e - 1); }
  }

  /** They are the numbers up to 128 times a power of two. */
  lemma {:induction false} HalvableExactly(n: nat)
    ensures Halvable(n) <==> exists m: nat, e: nat :: Doubled(n, m, e)
  {
    if n <= CUTOFF {
      assert Doubled(n, n, 0);
    } else {
      HalvableExactly(n / 2);
      hide Doubled;
      if Halvable(n) {
        var m: nat, e: nat :| Doubled(n / 2, m, e);
        OnceMore(n, m, e);
      }
      forall m: nat, e: nat | Doubled(n, m, e) ensures Halvable(n) { OnceLess(n, m, e); }
    }
  }

  lemma OnceMore(n: nat, m: nat, e: nat)
    requires n % 2 == 0 && Doubled(n / 2, m, e)
    ensures Doubled(n, m, e + 1)
  {
  }

  lemma OnceLess(n: nat, m: nat, e: nat)
    requires n > 128 && Doubled(n, m, e)
    ensures e > 0 && n % 2 == 0 && Doubled(n / 2, m, e - 1)
  {
    if e > 0 { Twice(n, m, Pow2(e - 1)); }
  }

  lemma Twice(n: nat, m: nat, p: nat)
    requires n == m * (2 * p)
    ensures n % 2 == 0 && n / 2 == m * p
  {
    var x := m * p;
    assert n == 2 * x;
  }

  /** n is m, at most 128, doubled e times. */
  predicate Doubled(n: nat, m: nat, e: nat) {
    m <= 128 && n == m * Pow2(e)
  }

  /** The size of the result: combining doubles the size of the parts. */
  function ResultSize(n: nat): nat {
    if n <= CUTOFF then n else 2 * ResultSize(n / 2)
  }

  /** The result has the size of the operands exactly for those sizes; that is why main insists on powers of two. */
  lemma {:induction false} SizeIsKept(n: nat)
    ensures ResultSize(n) == n <==> Halvable(n)
    ensures ResultSize(n) <= n
  {
    if n > CUTOFF { SizeIsKept(n / 2); }
  }

  // ----- matrices in memory

  /** An operand: the rows begin rs apart, the first one at off. */
  datatype View = View(buf: array<int>, off: nat, rs: nat)

  function Index(off: nat, rs: nat, i: nat, j: nat): nat {
    off + i * rs + j
  }

  /** The n by n view holds the matrix A. */
  ghost predicate Shows(v: View, n: nat, A: Matrix)
    reads v.buf
  {
    forall i: nat, j: nat :: i < n && j < n ==>
      Index(v.off, v.rs, i, j) < v.buf.Length && v.buf[Index(v.off, v.rs, i, j)] == A(i, j)
  }

  lemma IndexInside(off: nat, rs: nat, r: nat, c: nat, i: nat, j: nat)
    ensures Index(off + r * rs + c, rs, i, j) == Index(off, rs, r + i, c + j)
  {
    Spread(r, i, rs);
  }

  lemma Spread(a: nat, b: nat, c: nat)
    ensures (a + b) * c == a * c + b * c
  {
  }

  lemma SubView(v: View, n: nat, A: Matrix, r: nat, c: nat, m: nat)
    requires Shows(v, n, A) && r + m <= n && c + m <= n
    ensures Shows(View(v.buf, v.off + r * v.rs + c, v.rs), m, Sub(A, r, c))
  {
    hide Index, Sub;
    var w := View(v.buf, v.off + r * v.rs + c, v.rs);
    forall i: nat, j: nat | i < m && j < m
      ensures Index(w.off, w.rs, i, j) < w.buf.Length && w.buf[Index(w.off, w.rs, i, j)] == Sub(A, r, c)(i, j)
    {
      IndexInside(v.off, v.rs, r, c, i, j);
      SubAt(A, r, c, i, j);
      assert Index(v.off, v.rs, r + i, c + j) < v.buf.Length;
    }
  }

  lemma SubAt(A: Matrix, r: nat, c: nat, i: nat, j: nat)
    ensures Sub(A, r, c)(i, j) == A(r + i, c + j)
  {
  }

  /** The cells in P of the compact w by w matrix s are those of C. */
  ghost predicate Wrote(s: seq<int>, w: nat, C: Matrix, P: (nat, nat) -> bool) {
    |s| == w * w
        && forall a: nat, b: nat :: a < w && b < w && P(a, b) ==>
           Index(0, w, a, b) < |s| && s[Index(0, w, a, b)] == C(a, b)
  }

  lemma CellInside(w: nat, a: nat, b: nat)
    requires a < w && b < w
    ensures Index(0, w, a, b) < w * w
  {
    MulMono(a + 1, w, w);
    Bits.DistributeRight(a, 1, w);
  }

  lemma CellUnique(w: nat, a: nat, b: nat, x: nat, y: nat)
    requires b < w && y < w && Index(0, w, a, b) == Index(0, w, x, y)
    ensures a == x && b == y
  {
    if a < x { MulMono(a + 1, x, w); Bits.DistributeRight(a, 1, w); }
    if x < a { MulMono(x + 1, a, w); Bits.DistributeRight(x, 1, w); }
  }

  /** One more cell. */
  lemma WroteCell(s: seq<int>, w: nat, C: Matrix, P: (nat, nat) -> bool, P': (nat, nat) -> bool, a: nat, b: nat)
    requires Wrote(s, w, C, P) && a < w && b < w
    requires forall x: nat, y: nat :: P'(x, y) ==> P(x, y) || (x == a && y == b)
    ensures Index(0, w, a, b) < |s| && Wrote(s[Index(0, w, a, b) := C(a, b)], w, C, P')
  {
    CellInside(w, a, b);
    var s' := s[Index(0, w, a, b) := C(a, b)];
    forall x: nat, y: nat | x < w && y < w && P'(x, y)
        ensures Index(0, w, x, y) < |s'| && s'[Index(0, w, x, y)] == C(x, y) {
      CellInside(w, x, y);
      if Index(0, w, x, y) == Index(0, w, a, b) { CellUnique(w, a, b, x, y); }
    }
  }

  /** The cells before (i, j), row by row. */
  function Before(i: nat, j: nat): (nat, nat) -> bool {
    (a: nat, b: nat) => a < i || (a == i && b < j)
  }

  lemma NextRow(s: seq<int>, w: nat, C: Matrix, i: nat)
    requires Wrote(s, w, C, Before(i, w))
    ensures Wrote(s, w, C, Before(i + 1, 0))
  {
  }

  lemma AllWritten(c: array<int>, w: nat, C: Matrix)
    requires Wrote(c[..], w, C, Before(w, 0))
    ensures Shows(View(c, 0, w), w, C)
  {
    forall a: nat, b: nat | a < w && b < w ensures Index(0, w, a, b) < c.Length && c[Index(0, w, a, b)] == C(a, b) {
      CellInside(w, a, b);
      assert Before(w, 0)(a, b);
    }
  }

  lemma NothingWritten(s: seq<int>, w: nat, C: Matrix)
    requires |s| == w * w
    ensures Wrote(s, w, C, Before(0, 0))
  {
  }

  method Entry(v: View, i: nat, j: nat, ghost n: nat, ghost A: Matrix) returns (x: int)
    requires Shows(v, n, A) && i < n && j < n
    ensures x == A(i, j)
  {
    assert Index(v.off, v.rs, i, j) < v.buf.Length;
    x := v.buf[v.off + i * v.rs + j];
  }

  method Put(c: array<int>, w: nat, i: nat, j: nat, x: int, ghost C: Matrix, ghost P: (nat, nat) -> bool,
             ghost P': (nat, nat) -> bool)
    requires Wrote(c[..], w, C, P) && i < w && j < w && x == C(i, j)
    requires forall a: nat, b: nat :: P'(a, b) ==> P(a, b) || (a == i && b == j)
    modifies c
    ensures Wrote(c[..], w, C, P')
  {
    ghost var s := c[..];
    WroteCell(s, w, C, P, P', i, j);
    c[i * w + j] := x;
    assert c[..] == s[Index(0, w, i, j) := x];
  }

  /** A new compact matrix that holds the sum or the difference of two views. */
  method AddCompactMatrix(a: View, b: View, n: nat, add: bool, ghost A: Matrix, ghost B: Matrix) returns (c: View)
    requires Shows(a, n, A) && Shows(b, n, B)
    ensures fresh(c.buf) && c.off == 0 && c.rs == n && Shows(c, n, if add then Plus(A, B) else Minus(A, B))
  {
    ghost var C := if add then Plus(A, B) else Minus(A, B);
    var m := new int[n * n](_ => 0);
    NothingWritten(m[..], n, C);
    for i := 0 to n
      invariant Wrote(m[..], n, C, Before(i, 0))
    {
      for j := 0 to n
        invariant Wrote(m[..], n, C, Before(i, j))
      {
        hide Wrote, Shows;
        var x := Entry(a, i, j, n, A);
        var y := Entry(b, i, j, n, B);
        Put(m, n, i, j, if add then x + y else x - y, C, Before(i, j), Before(i, j + 1));
      }
      NextRow(m[..], n, C, i);
    }
    AllWritten(m, n, C);
    c := View(m, 0, n);
  }

  /** The innermost loop of compactMatmul. */
  method RowTimesColumn(a: View, b: View, n: nat, i: nat, j: nat, ghost A: Matrix, ghost B: Matrix) returns (x: int)
    requires Shows(a, n, A) && Shows(b, n, B) && i < n && j < n
    ensures x == Dot(A, B, i, j, n)
  {
    x := 0;
    for k := 0 to n
      invariant x == Dot(A, B, i, j, k)
    {
      hide Shows;
      var y := Entry(a, i, k, n, A);
      var z := Entry(b, k, j, n, B);
      x := x + y * z;
    }
  }

  /** compactMatmul. */
  method CompactMatmul(a: View, b: View, n: nat, ghost A: Matrix, ghost B: Matrix) returns (c: View)
    requires Shows(a, n, A) && Shows(b, n, B)
    ensures fresh(c.buf) && c.off == 0 && c.rs == n && Shows(c, n, Product(A, B, n))
  {
    ghost var C := Product(A, B, n);
    var m := new int[n * n](_ => 0);
    NothingWritten(m[..], n, C);
    for i := 0 to n
      invariant Wrote(m[..], n, C, Before(i, 0))
    {
      for j := 0 to n
        invariant Wrote(m[..], n, C, Before(i, j))
      {
        hide Wrote, Shows;
        var x := RowTimesColumn(a, b, n, i, j, A, B);
        Put(m, n, i, j, x, C, Before(i, j), Before(i, j + 1));
      }
      NextRow(m[..], n, C, i);
    }
    AllWritten(m, n, C);
    c := View(m, 0, n);
  }

  /** What combining makes of seven matrices of size m. */
  function Combined(p: seq<Matrix>, m: nat): Matrix
    requires |p| == 7
  {
    (i: nat, j: nat) =>
      if i < m then
        if j < m then p[0](i, j) + p[3](i, j) - p[4](i, j) + p[6](i, j) else p[2](i, j - m) + p[4](i, j - m)
      else
        if j < m then p[1](i - m, j) + p[3](i - m, j)
        else p[0](i - m, j - m) - p[1](i - m, j - m) + p[2](i - m, j - m) + p[5](i - m, j - m)
  }

  /** The cells whose place inside their quarter is before (i, j). */
  function QuarterBefore(i: nat, j: nat, m: nat): (nat, nat) -> bool {
    (a: nat, b: nat) => Place(a, m) < i || (Place(a, m) == i && Place(b, m) < j)
  }

  function Place(a: nat, m: nat): nat {
    if a < m then a else a - m
  }

  function OneMore(P: (nat, nat) -> bool, x: nat, y: nat): (nat, nat) -> bool {
    (a: nat, b: nat) => P(a, b) || (a == x && b == y)
  }

  ghost predicate ShowAll(rs: seq<View>, m: nat, p: seq<Matrix>)
    reads set k | 0 <= k < |rs| :: rs[k].buf
  {
    |rs| == 7 && |p| == 7 && forall k :: 0 <= k < 7 ==> Shows(rs[k], m, p[k])
  }

  /** combineF. */
  method Combine(rs: seq<View>, m: nat, ghost p: seq<Matrix>) returns (c: View)
    requires ShowAll(rs, m, p)
    ensures fresh(c.buf) && c.off == 0 && c.rs == 2 * m && Shows(c, 2 * m, Combined(p, m))
  {
    ghost var C := Combined(p, m);
    var w := 2 * m;
    var ret := new int[w * w](_ => 0);
    NothingInQuarters(ret[..], m, C);
    for i := 0 to m
      invariant Wrote(ret[..], w, C, QuarterBefore(i, 0, m))
    {
      for j := 0 to m
        invariant Wrote(ret[..], w, C, QuarterBefore(i, j, m))
      {
        hide Wrote, Shows;
        CombineCell(rs, m, ret, i, j, p);
      }
      NextQuarterRow(ret[..], m, C, i);
    }
    QuartersWritten(ret[..], m, C);
    AllWritten(ret, w, C);
    c := View(ret, 0, w);
  }

  lemma NothingInQuarters(s: seq<int>, m: nat, C: Matrix)
    requires |s| == (2 * m) * (2 * m)
    ensures Wrote(s, 2 * m, C, QuarterBefore(0, 0, m))
  {
  }

  lemma NextQuarterRow(s: seq<int>, m: nat, C: Matrix, i: nat)
    requires Wrote(s, 2 * m, C, QuarterBefore(i, m, m))
    ensures Wrote(s, 2 * m, C, QuarterBefore(i + 1, 0, m))
  {
  }

  lemma QuartersWritten(s: seq<int>, m: nat, C: Matrix)
    requires Wrote(s, 2 * m, C, QuarterBefore(m, 0, m))
    ensures Wrote(s, 2 * m, C, Before(2 * m, 0))
  {
  }

  /** The four cells of the result at place (i, j) of their quarters. */
  method CombineCell(rs: seq<View>, m: nat, ret: array<int>, i: nat, j: nat, ghost p: seq<Matrix>)
    requires ShowAll(rs, m, p) && |p| == 7 && i < m && j < m && (forall k :: 0 <= k < |rs| ==> rs[k].buf != ret)
    requires Wrote(ret[..], 2 * m, Combined(p, m), QuarterBefore(i, j, m))
    modifies ret
    ensures Wrote(ret[..], 2 * m, Combined(p, m), QuarterBefore(i, j + 1, m))
  {
    hide *;
    var c11, c12, c21, c22 := CellValues(rs, m, i, j, p);
    PutFour(ret, m, i, j, c11, c12, c21, c22, Combined(p, m));
  }

  /** The four entries. */
  method CellValues(rs: seq<View>, m: nat, i: nat, j: nat, ghost p: seq<Matrix>)
    returns (c11: int, c12: int, c21: int, c22: int)
    requires ShowAll(rs, m, p) && |p| == 7 && i < m && j < m
    ensures c11 == Combined(p, m)(i, j) && c12 == Combined(p, m)(i, j + m)
    ensures c21 == Combined(p, m)(i + m, j) && c22 == Combined(p, m)(i + m, j + m)
  {
    CombinedAt(p, m, i, j);
    ShowAllIs(rs, m, p);
    hide *;
    var x0 := Entry(rs[0], i, j, m, p[0]);
    var x1 := Entry(rs[1], i, j, m, p[1]);
    var x2 := Entry(rs[2], i, j, m, p[2]);
    var x3 := Entry(rs[3], i, j, m, p[3]);
    var x4 := Entry(rs[4], i, j, m, p[4]);
    var x5 := Entry(rs[5], i, j, m, p[5]);
    var x6 := Entry(rs[6], i, j, m, p[6]);
    c11, c12, c21, c22 := x0 + x3 - x4 + x6, x2 + x4, x1 + x3, x0 - x1 + x2 + x5;
  }

  lemma ShowAllIs(rs: seq<View>, m: nat, p: seq<Matrix>)
    requires ShowAll(rs, m, p)
    ensures |rs| == 7 && |p| == 7 && forall k :: 0 <= k < 7 ==> Shows(rs[k], m, p[k])
  {
  }

  method PutFour(ret: array<int>, m: nat, i: nat, j: nat, c11: int, c12: int, c21: int, c22: int, ghost C: Matrix)
    requires i < m && j < m && Wrote(ret[..], 2 * m, C, QuarterBefore(i, j, m))
    requires c11 == C(i, j) && c12 == C(i, j + m) && c21 == C(i + m, j) && c22 == C(i + m, j + m)
    modifies ret
    ensures Wrote(ret[..], 2 * m, C, QuarterBefore(i, j + 1, m))
  {
    hide *;
    ghost var Q := QuarterBefore(i, j, m);
    ghost var Q1 := OneMore(Q, i, j);
    ghost var Q2 := OneMore(Q1, i, j + m);
    ghost var Q3 := OneMore(Q2, i + m, j);
    OneMoreIs(Q, i, j);
    OneMoreIs(Q1, i, j + m);
    OneMoreIs(Q2, i + m, j);
    OneMoreIs(Q3, i + m, j + m);
    Put(ret, 2 * m, i, j, c11, C, Q, Q1);
    Put(ret, 2 * m, i, j + m, c12, C, Q1, Q2);
    Put(ret, 2 * m, i + m, j, c21, C, Q2, Q3);
    Put(ret, 2 * m, i + m, j + m, c22, C, Q3, OneMore(Q3, i + m, j + m));
    FourMore(ret[..], m, C, i, j);
  }

  lemma OneMoreIs(P: (nat, nat) -> bool, x: nat, y: nat)
    ensures forall a: nat, b: nat :: OneMore(P, x, y)(a, b) ==> P(a, b) || (a == x && b == y)
  {
  }

  lemma CombinedAt(p: seq<Matrix>, m: nat, i: nat, j: nat)
    requires |p| == 7 && i < m && j < m
    ensures Combined(p, m)(i, j) == p[0](i, j) + p[3](i, j) - p[4](i, j) + p[6](i, j)
    ensures Combined(p, m)(i, j + m) == p[2](i, j) + p[4](i, j)
    ensures Combined(p, m)(i + m, j) == p[1](i, j) + p[3](i, j)
    ensures Combined(p, m)(i + m, j + m) == p[0](i, j) - p[1](i, j) + p[2](i, j) + p[5](i, j)
  {
  }

  lemma FourOf(Q: (nat, nat) -> bool, i: nat, j: nat, m: nat, a: nat, b: nat)
    requires Q(a, b) || ((a == i || a == i + m) && (b == j || b == j + m))
    ensures OneMore(OneMore(OneMore(OneMore(Q, i, j), i, j + m), i + m, j), i + m, j + m)(a, b)
  {
  }

  lemma QuarterNext(i: nat, j: nat, m: nat, a: nat, b: nat)
    requires QuarterBefore(i, j + 1, m)(a, b) && !QuarterBefore(i, j, m)(a, b)
    ensures (a == i || a == i + m) && (b == j || b == j + m)
  {
    assert Place(a, m) == i && Place(b, m) == j;
  }

  lemma FourMore(s: seq<int>, m: nat, C: Matrix, i: nat, j: nat)
    requires i < m && j < m
    requires Wrote(s, 2 * m, C,
                   OneMore(OneMore(OneMore(OneMore(QuarterBefore(i, j, m), i, j), i, j + m), i + m, j), i + m, j + m))
    ensures Wrote(s, 2 * m, C, QuarterBefore(i, j + 1, m))
  {
    var P := OneMore(OneMore(OneMore(OneMore(QuarterBefore(i, j, m), i, j), i, j + m), i + m, j), i + m, j + m);
    forall a: nat, b: nat | a < 2 * m && b < 2 * m && QuarterBefore(i, j + 1, m)(a, b) ensures P(a, b) {
      if !QuarterBefore(i, j, m)(a, b) {
        QuarterNext(i, j, m, a, b);
      }
      FourOf(QuarterBefore(i, j, m), i, j, m, a, b);
    }
  }

  // ----- divide and conquer

  datatype Operand = Operand(a: View, b: View)

  ghost predicate OperandShows(op: Operand, n: nat, A: Matrix, B: Matrix)
    reads op.a.buf, op.b.buf
  {
    Shows(op.a, n, A) && Shows(op.b, n, B)
  }

  /** The operands of the seven products. */
  ghost function Lefts(A: Matrix, m: nat): seq<Matrix> {
    var (A11, A12, A21, A22) := (Sub(A, 0, 0), Sub(A, 0, m), Sub(A, m, 0), Sub(A, m, m));
    [Plus(A11, A22), Plus(A21, A22), A11, A22, Plus(A11, A12), Minus(A21, A11), Minus(A12, A22)]
  }

  ghost function Rights(B: Matrix, m: nat): seq<Matrix> {
    var (B11, B12, B21, B22) := (Sub(B, 0, 0), Sub(B, 0, m), Sub(B, m, 0), Sub(B, m, m));
    [Plus(B11, B22), B11, Minus(B12, B22), Minus(B21, B11), B22, Plus(B11, B12), Plus(B21, B22)]
  }

  ghost predicate Divided(ops: seq<Operand>, m: nat, A: Matrix, B: Matrix)
    reads set k | 0 <= k < |ops| :: ops[k].a.buf
    reads set k | 0 <= k < |ops| :: ops[k].b.buf
  {
    |ops| == 7 && forall k :: 0 <= k < 7 ==> OperandShows(ops[k], m, Lefts(A, m)[k], Rights(B, m)[k])
  }

  /** divide. */
  method Divide(op: Operand, n: nat, ghost A: Matrix, ghost B: Matrix) returns (ops: seq<Operand>)
    requires OperandShows(op, n, A, B)
    ensures Divided(ops, n / 2, A, B)
  {
    var m := n / 2;
    OperandIs(op, n, A, B);
    var a11, a12 := View(op.a.buf, op.a.off, op.a.rs), View(op.a.buf, op.a.off + m, op.a.rs);
    var a21, a22 := View(op.a.buf, op.a.off + m * op.a.rs, op.a.rs),
        View(op.a.buf, op.a.off + m * op.a.rs + m, op.a.rs);
    var b11, b12 := View(op.b.buf, op.b.off, op.b.rs), View(op.b.buf, op.b.off + m, op.b.rs);
    var b21, b22 := View(op.b.buf, op.b.off + m * op.b.rs, op.b.rs),
        View(op.b.buf, op.b.off + m * op.b.rs + m, op.b.rs);
    hide *;
    Quarters(op.a, n, A, m);
    Quarters(op.b, n, B, m);
    ghost var A11, A12, A21, A22 := Sub(A, 0, 0), Sub(A, 0, m), Sub(A, m, 0), Sub(A, m, m);
    ghost var B11, B12, B21, B22 := Sub(B, 0, 0), Sub(B, 0, m), Sub(B, m, 0), Sub(B, m, m);
    var p11, p12, p21, p32, p42 := FirstSums(a11, a21, a22, b11, b12, b21, b22, m, A11, A21, A22, B11, B12, B21, B22);
    var p51, p61, p62, p71, p72 := LastSums(a11, a12, a21, a22, b11, b12, b21, b22, m, A11, A12, A21, A22, B11, B12,
                                            B21, B22);
    ops := [Operand(p11, p12), Operand(p21, b11), Operand(a11, p32), Operand(a22, p42), Operand(p51, b22),
            Operand(p61, p62), Operand(p71, p72)];
    IsDivided(ops, m, A, B);
  }

  method FirstSums(a11: View, a21: View, a22: View, b11: View, b12: View, b21: View, b22: View, m: nat,
                   ghost A11: Matrix, ghost A21: Matrix, ghost A22: Matrix, ghost B11: Matrix, ghost B12: Matrix,
                   ghost B21: Matrix, ghost B22: Matrix)
    returns (p11: View, p12: View, p21: View, p32: View, p42: View)
    requires Shows(a11, m, A11) && Shows(a21, m, A21) && Shows(a22, m, A22)
    requires Shows(b11, m, B11) && Shows(b12, m, B12) && Shows(b21, m, B21) && Shows(b22, m, B22)
    ensures Shows(p11, m, Plus(A11, A22)) && Shows(p12, m, Plus(B11, B22)) && Shows(p21, m, Plus(A21, A22))
    ensures Shows(p32, m, Minus(B12, B22)) && Shows(p42, m, Minus(B21, B11))
  {
    hide *;
    p11 := AddCompactMatrix(a11, a22, m, true, A11, A22);
    p12 := AddCompactMatrix(b11, b22, m, true, B11, B22);
    p21 := AddCompactMatrix(a21, a22, m, true, A21, A22);
    p32 := AddCompactMatrix(b12, b22, m, false, B12, B22);
    p42 := AddCompactMatrix(b21, b11, m, false, B21, B11);
  }

  method LastSums(a11: View, a12: View, a21: View, a22: View, b11: View, b12: View, b21: View, b22: View, m: nat,
                  ghost A11: Matrix, ghost A12: Matrix, ghost A21: Matrix, ghost A22: Matrix,
                  ghost B11: Matrix, ghost B12: Matrix, ghost B21: Matrix, ghost B22: Matrix)
    returns (p51: View, p61: View, p62: View, p71: View, p72: View)
    requires Shows(a11, m, A11) && Shows(a12, m, A12) && Shows(a21, m, A21) && Shows(a22, m, A22)
    requires Shows(b11, m, B11) && Shows(b12, m, B12) && Shows(b21, m, B21) && Shows(b22, m, B22)
    ensures Shows(p51, m, Plus(A11, A12)) && Shows(p61, m, Minus(A21, A11)) && Shows(p62, m, Plus(B11, B12))
    ensures Shows(p71, m, Minus(A12, A22)) && Shows(p72, m, Plus(B21, B22))
  {
    hide *;
    p51 := AddCompactMatrix(a11, a12, m, true, A11, A12);
    p61 := AddCompactMatrix(a21, a11, m, false, A21, A11);
    p62 := AddCompactMatrix(b11, b12, m, true, B11, B12);
    p71 := AddCompactMatrix(a12, a22, m, false, A12, A22);
    p72 := AddCompactMatrix(b21, b22, m, true, B21, B22);
  }

  lemma OperandIs(op: Operand, n: nat, A: Matrix, B: Matrix)
    requires OperandShows(op, n, A, B)
    ensures Shows(op.a, n, A) && Shows(op.b, n, B)
  {
  }

  lemma Quarters(v: View, n: nat, A: Matrix, m: nat)
    requires Shows(v, n, A) && 2 * m <= n
    ensures Shows(View(v.buf, v.off, v.rs), m, Sub(A, 0, 0)) && Shows(View(v.buf, v.off + m, v.rs), m, Sub(A, 0, m))
    ensures Shows(View(v.buf, v.off + m * v.rs, v.rs), m, Sub(A, m, 0))
            && Shows(View(v.buf, v.off + m * v.rs + m, v.rs), m, Sub(A, m, m))
  {
    SubView(v, n, A, 0, 0, m);
    SubView(v, n, A, 0, m, m);
    SubView(v, n, A, m, 0, m);
    SubView(v, n, A, m, m, m);
    hide *;
    assert 0 * v.rs == 0;
  }

  lemma IsDivided(ops: seq<Operand>, m: nat, A: Matrix, B: Matrix)
    requires |ops| == 7
    requires var (A11, A12, A21, A22) := (Sub(A, 0, 0), Sub(A, 0, m), Sub(A, m, 0), Sub(A, m, m));
             && Shows(ops[0].a, m, Plus(A11, A22)) && Shows(ops[1].a, m, Plus(A21, A22)) && Shows(ops[2].a, m, A11)
                && Shows(ops[3].a, m, A22)
             && Shows(ops[4].a, m, Plus(A11, A12)) && Shows(ops[5].a, m, Minus(A21, A11))
                && Shows(ops[6].a, m, Minus(A12, A22))
    requires var (B11, B12, B21, B22) := (Sub(B, 0, 0), Sub(B, 0, m), Sub(B, m, 0), Sub(B, m, m));
             && Shows(ops[0].b, m, Plus(B11, B22)) && Shows(ops[1].b, m, B11) && Shows(ops[2].b, m, Minus(B12, B22))
                && Shows(ops[3].b, m, Minus(B21, B11))
             && Shows(ops[4].b, m, B22) && Shows(ops[5].b, m, Plus(B11, B12)) && Shows(ops[6].b, m, Plus(B21, B22))
    ensures Divided(ops, m, A, B)
  {
    hide Shows, Plus, Minus, Sub;
  }

  ghost function Products(L: seq<Matrix>, R: seq<Matrix>, m: nat): (p: seq<Matrix>)
    requires |L| == |R| == 7
    ensures |p| == 7 && forall k :: 0 <= k < 7 ==> p[k] == Product(L[k], R[k], m)
  {
    seq(7, k requires 0 <= k < 7 => Product(L[k], R[k], m))
  }

  /** Combining the seven products gives the ordinary product. */
  lemma CombinedIsProduct(A: Matrix, B: Matrix, m: nat, i: nat, j: nat)
    requires i < 2 * m && j < 2 * m
    ensures Combined(Products(Lefts(A, m), Rights(B, m), m), m)(i, j) == Product(A, B, 2 * m)(i, j)
  {
    hide *;
    LeftsSize(A, B, m);
    var x: nat, y: nat := if i < m then i else i - m, if j < m then j else j - m;
    var p := Products(Lefts(A, m), Rights(B, m), m);
    TheSeven(A, B, m, p);
    QuartersAre(A, B, m, x, y, p[0](x, y), p[1](x, y), p[2](x, y), p[3](x, y), p[4](x, y), p[5](x, y), p[6](x, y));
    CombinedAt(p, m, x, y);
  }

  /** The quarters of the product in terms of the seven products. */
  lemma QuartersAre(A: Matrix, B: Matrix, m: nat, x: nat, y: nat, p1: int, p2: int, p3: int, p4: int, p5: int, p6: int,
                    p7: int)
    requires p1 == P1(Sub(A, 0, 0), Sub(A, m, m), Sub(B, 0, 0), Sub(B, m, m), m)(x, y)
    requires p2 == P2(Sub(A, m, 0), Sub(A, m, m), Sub(B, 0, 0), m)(x, y)
    requires p3 == P3(Sub(A, 0, 0), Sub(B, 0, m), Sub(B, m, m), m)(x, y)
    requires p4 == P4(Sub(A, m, m), Sub(B, m, 0), Sub(B, 0, 0), m)(x, y)
    requires p5 == P5(Sub(A, 0, 0), Sub(A, 0, m), Sub(B, m, m), m)(x, y)
    requires p6 == P6(Sub(A, m, 0), Sub(A, 0, 0), Sub(B, 0, 0), Sub(B, 0, m), m)(x, y)
    requires p7 == P7(Sub(A, 0, m), Sub(A, m, m), Sub(B, m, 0), Sub(B, m, m), m)(x, y)
    ensures Product(A, B, 2 * m)(x, y) == p1 + p4 - p5 + p7
    ensures Product(A, B, 2 * m)(x, y + m) == p3 + p5
    ensures Product(A, B, 2 * m)(x + m, y) == p2 + p4
    ensures Product(A, B, 2 * m)(x + m, y + m) == p1 - p2 + p3 + p6
  {
    hide *;
    SevenProducts(Sub(A, 0, 0), Sub(A, 0, m), Sub(A, m, 0), Sub(A, m, m), Sub(B, 0, 0), Sub(B, 0, m), Sub(B, m, 0),
                  Sub(B, m, m), x, y, m);
    DotHalves(A, B, 0, 0, x, y, m, m);
    DotHalves(A, B, 0, m, x, y, m, m);
    DotHalves(A, B, m, 0, x, y, m, m);
    DotHalves(A, B, m, m, x, y, m, m);
    ProductAt(A, B, 2 * m, x, y);
    ProductAt(A, B, 2 * m, x, y + m);
    ProductAt(A, B, 2 * m, x + m, y);
    ProductAt(A, B, 2 * m, x + m, y + m);
  }

  lemma ProductAt(A: Matrix, B: Matrix, n: nat, i: nat, j: nat)
    ensures Product(A, B, n)(i, j) == Dot(A, B, i, j, n)
  {
  }

  lemma TheSeven(A: Matrix, B: Matrix, m: nat, p: seq<Matrix>)
    requires p == Products(Lefts(A, m), Rights(B, m), m)
    ensures |p| == 7
    ensures p[0] == P1(Sub(A, 0, 0), Sub(A, m, m), Sub(B, 0, 0), Sub(B, m, m), m)
    ensures p[1] == P2(Sub(A, m, 0), Sub(A, m, m), Sub(B, 0, 0), m)
    ensures p[2] == P3(Sub(A, 0, 0), Sub(B, 0, m), Sub(B, m, m), m)
    ensures p[3] == P4(Sub(A, m, m), Sub(B, m, 0), Sub(B, 0, 0), m)
    ensures p[4] == P5(Sub(A, 0, 0), Sub(A, 0, m), Sub(B, m, m), m)
    ensures p[5] == P6(Sub(A, m, 0), Sub(A, 0, 0), Sub(B, 0, 0), Sub(B, 0, m), m)
    ensures p[6] == P7(Sub(A, 0, m), Sub(A, m, m), Sub(B, m, 0), Sub(B, m, m), m)
  {
    hide Product, Plus, Minus, Sub;
  }

  lemma SameShows(v: View, n: nat, A: Matrix, A': Matrix)
    requires Shows(v, n, A) && forall i: nat, j: nat :: i < n && j < n ==> A(i, j) == A'(i, j)
    ensures Shows(v, n, A')
  {
  }

  // ----- the recursion

  /** What the recursion makes of two matrices, for any size: an odd size loses its last row and column in the
      halves. */
  ghost function Recursed(A: Matrix, B: Matrix, n: nat): Matrix
    decreases n, 0
  {
    if n <= CUTOFF then Product(A, B, n)
    else
      LeftsSize(A, B, n / 2);
      Combined(RecursedAll(Lefts(A, n / 2), Rights(B, n / 2), n / 2), ResultSize(n / 2))
  }

  ghost function RecursedAll(L: seq<Matrix>, R: seq<Matrix>, m: nat): (p: seq<Matrix>)
    requires |L| == |R| == 7
    ensures |p| == 7 && forall k :: 0 <= k < 7 ==> p[k] == Recursed(L[k], R[k], m)
    decreases m, 1
  {
    seq(7, k requires 0 <= k < 7 => Recursed(L[k], R[k], m))
  }

  lemma CombinedSame(p: seq<Matrix>, q: seq<Matrix>, m: nat, i: nat, j: nat)
    requires |p| == |q| == 7 && i < 2 * m && j < 2 * m
    requires forall k: nat, x: nat, y: nat :: k < 7 && x < m && y < m ==> p[k](x, y) == q[k](x, y)
    ensures Combined(p, m)(i, j) == Combined(q, m)(i, j)
  {
    var x: nat, y: nat := if i < m then i else i - m, if j < m then j else j - m;
    CombinedAt(p, m, x, y);
    CombinedAt(q, m, x, y);
    assert forall k: nat :: k < 7 ==> p[k](x, y) == q[k](x, y);
  }

  /** For the sizes that halve down to the cutoff, the recursion gives the ordinary product. */
  lemma {:induction false} RecursedIsProduct(A: Matrix, B: Matrix, n: nat, i: nat, j: nat)
    requires Halvable(n) && i < n && j < n
    ensures Recursed(A, B, n)(i, j) == Product(A, B, n)(i, j)
    decreases n
  {
    hide *;
    if n <= CUTOFF {
      SmallSize(A, B, n);
    } else {
      var m := n / 2;
      HalvesAgain(n);
      RecursedIs(A, B, n);
      SizeIsKept(m);
      var L, R := Lefts(A, m), Rights(B, m);
      var p, q := RecursedAll(L, R, m), Products(L, R, m);
      forall k: nat, x: nat, y: nat | k < 7 && x < m && y < m ensures p[k](x, y) == q[k](x, y) {
        RecursedIsProduct(L[k], R[k], m, x, y);
      }
      CombinedSame(p, q, m, i, j);
      CombinedIsProduct(A, B, m, i, j);
    }
  }

  lemma HalvesAgain(n: nat)
    requires Halvable(n) && n > CUTOFF
    ensures Halvable(n / 2) && n == 2 * (n / 2)
  {
  }

  lemma RecursedIs(A: Matrix, B: Matrix, n: nat)
    requires n > CUTOFF
    ensures |Lefts(A, n / 2)| == |Rights(B, n / 2)| == 7
    ensures Recursed(A, B, n) == Combined(RecursedAll(Lefts(A, n / 2), Rights(B, n / 2), n / 2), ResultSize(n / 2))
    ensures ResultSize(n) == 2 * ResultSize(n / 2) && n / 2 < n
  {
    hide Lefts, Rights, Combined;
    LeftsSize(A, B, n / 2);
  }

  lemma SmallSize(A: Matrix, B: Matrix, n: nat)
    requires n <= CUTOFF
    ensures Recursed(A, B, n) == Product(A, B, n) && ResultSize(n) == n && Halvable(n)
  {
  }

  /** The divide-and-conquer run: the ordinary product for every size that halves down to the cutoff; for any size the
      result has the size that combining gives it. */
  method Multiply(op: Operand, n: nat, ghost A: Matrix, ghost B: Matrix) returns (c: View)
    requires OperandShows(op, n, A, B)
    ensures fresh(c.buf) && c.off == 0 && c.rs == ResultSize(n) && Shows(c, ResultSize(n), Recursed(A, B, n))
    ensures Halvable(n) ==> c.rs == n && Shows(c, n, Product(A, B, n))
    decreases n, 0
  {
    hide *;
    SizeIsKept(n);
    if n <= CUTOFF {
      SmallSize(A, B, n);
      OperandIs(op, n, A, B);
      c := CompactMatmul(op.a, op.b, n, A, B);
    } else {
      var m := n / 2;
      RecursedIs(A, B, n);
      var ops := Divide(op, n, A, B);
      DividedIs(ops, m, A, B);
      ghost var L, R := Lefts(A, m), Rights(B, m);
      var rs := MultiplyAll(ops, m, L, R, Buffers(ops));
      c := Combine(rs, ResultSize(m), RecursedAll(L, R, m));
      if Halvable(n) {
        forall i: nat, j: nat | i < n && j < n ensures Recursed(A, B, n)(i, j) == Product(A, B, n)(i, j) {
          RecursedIsProduct(A, B, n, i, j);
        }
        SameShows(c, n, Recursed(A, B, n), Product(A, B, n));
      }
    }
  }

  lemma LeftsSize(A: Matrix, B: Matrix, m: nat)
    ensures |Lefts(A, m)| == 7 && |Rights(B, m)| == 7
  {
  }

  lemma DividedIs(ops: seq<Operand>, m: nat, A: Matrix, B: Matrix)
    requires Divided(ops, m, A, B)
    ensures |ops| == |Lefts(A, m)| == |Rights(B, m)| == 7
    ensures OperandsIn(ops, m, Lefts(A, m), Rights(B, m), Buffers(ops))
  {
  }

  method MultiplyAll(ops: seq<Operand>, m: nat, ghost L: seq<Matrix>, ghost R: seq<Matrix>, ghost F: set<array<int>>)
    returns (rs: seq<View>)
    requires |ops| == |L| == |R| == 7 && OperandsIn(ops, m, L, R, F)
    ensures ShowAll(rs, ResultSize(m), RecursedAll(L, R, m))
    decreases m, 1
  {
    hide *;
    rs := [];
    ghost var p, G := RecursedAll(L, R, m), {};
    NoneShown(ResultSize(m), p);
    for k := 0 to 7
      invariant |rs| == k && ShownIn(rs, ResultSize(m), p, G) && OperandsIn(ops, m, L, R, F)
    {
      OperandAt(ops, m, L, R, F, k);
      var r := Multiply(ops[k], m, L[k], R[k]);
      OneMoreShown(rs, ResultSize(m), p, G, r);
      rs, G := rs + [r], G + {r.buf};
    }
    AllShown(rs, ResultSize(m), p, G);
  }

  ghost function Buffers(ops: seq<Operand>): set<array<int>> {
    (set k | 0 <= k < |ops| :: ops[k].a.buf) + (set k | 0 <= k < |ops| :: ops[k].b.buf)
  }

  /** The operands show L and R, with their elements in the arrays F. */
  ghost predicate OperandsIn(ops: seq<Operand>, m: nat, L: seq<Matrix>, R: seq<Matrix>, F: set<array<int>>)
    requires |ops| == |L| == |R|
    reads F
  {
    forall k :: 0 <= k < |ops| ==> ops[k].a.buf in F && ops[k].b.buf in F && OperandShows(ops[k], m, L[k], R[k])
  }

  lemma OperandAt(ops: seq<Operand>, m: nat, L: seq<Matrix>, R: seq<Matrix>, F: set<array<int>>, k: nat)
    requires |ops| == |L| == |R| == 7 && k < 7 && OperandsIn(ops, m, L, R, F)
    ensures OperandShows(ops[k], m, L[k], R[k]) && |RecursedAll(L, R, m)| == 7
    ensures RecursedAll(L, R, m)[k] == Recursed(L[k], R[k], m)
  {
  }

  /** The first views show the first matrices, with their elements in the arrays G. */
  ghost predicate ShownIn(rs: seq<View>, m: nat, p: seq<Matrix>, G: set<array<int>>)
    reads G
  {
    |rs| <= |p| && forall k :: 0 <= k < |rs| ==> rs[k].buf in G && Shows(rs[k], m, p[k])
  }

  lemma NoneShown(m: nat, p: seq<Matrix>)
    ensures ShownIn([], m, p, {})
  {
  }

  lemma OneMoreShown(rs: seq<View>, m: nat, p: seq<Matrix>, G: set<array<int>>, r: View)
    requires ShownIn(rs, m, p, G) && |rs| < |p| && Shows(r, m, p[|rs|])
    ensures ShownIn(rs + [r], m, p, G + {r.buf})
  {
    hide Shows;
  }

  lemma AllShown(rs: seq<View>, m: nat, p: seq<Matrix>, G: set<array<int>>)
    requires ShownIn(rs, m, p, G) && |rs| == |p| == 7
    ensures ShowAll(rs, m, p)
  {
    hide Shows;
  }
}
