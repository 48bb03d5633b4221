/** Block Cholesky as a task graph. */
module Cholesky {
  // Blocked Cholesky factorization: the sequential program and its dataflow version.
  // Blocks are values of any type, the four kernels are any functions on them.
  // Task (k, j, i), with i <= k <= j, updates block (j, k): for i < k it subtracts a product of blocks of column i
  // (CHERK on the diagonal, CGEMM below it), for i == k it finishes the block (CPOTF2 on the diagonal, CTRSM below it).

  datatype Kernels<!B> = Kernels(herk: (B, B) -> B, potf2: B -> B, gemm: (B, B, B) -> B, trsm: (B, B) -> B)

  datatype Task = Task(k: nat, j: nat, i: nat)

  predicate Valid(nb: nat, t: Task) {
    t.i <= t.k <= t.j < nb
  }

  /** Program order. */
  predicate Before(t: Task, u: Task) {
    t.k < u.k || (t.k == u.k && (t.j < u.j || (t.j == u.j && t.i < u.i)))
  }

  /** Block (j, k) after task (k, j, i), from the original blocks. */
  function Val<B>(K: Kernels<B>, A: (nat, nat) -> B, k: nat, j: nat, i: nat): B
    requires i <= k <= j
    decreases k, j, i
  {
    var prev := if i == 0 then A(j, k) else Val(K, A, k, j, i - 1);
    if i < k then
      if j == k then K.herk(prev, Val(K, A, i, k, i)) else K.gemm(Val(K, A, i, k, i), Val(K, A, i, j, i), prev)
    else
      if j == k then K.potf2(prev) else K.trsm(Val(K, A, k, k, k), prev)
  }

  /** Block (r, c) after its first n tasks. */
  function After<B>(K: Kernels<B>, A: (nat, nat) -> B, r: nat, c: nat, n: nat): B
    requires n <= c + 1
  {
    if c > r || n == 0 then A(r, c) else Val(K, A, c, r, n - 1)
  }

  type Memory<B> = map<(nat, nat), B>

  predicate Blocks<B>(nb: nat, m: Memory<B>) {
    forall r: nat, c: nat :: r < nb && c < nb ==> (r, c) in m
  }

  /** What a task computes from the blocks. */
  function NewBlock<B>(K: Kernels<B>, nb: nat, m: Memory<B>, t: Task): B
    requires Blocks(nb, m) && Valid(nb, t)
  {
    var (k, j, i) := (t.k, t.j, t.i);
    if i < k then
      if j == k then K.herk(m[(k, k)], m[(k, i)]) else K.gemm(m[(k, i)], m[(j, i)], m[(j, k)])
    else
      if j == k then K.potf2(m[(k, k)]) else K.trsm(m[(k, k)], m[(j, k)])
  }

  /** What one task does to the blocks. */
  function Exec<B>(K: Kernels<B>, nb: nat, m: Memory<B>, t: Task): (m': Memory<B>)
    requires Blocks(nb, m) && Valid(nb, t)
    ensures Blocks(nb, m')
  {
    m[(t.j, t.k) := NewBlock(K, nb, m, t)]
  }

  /** The blocks when n(r, c) tasks of every block (r, c) have been executed. */
  ghost predicate Reached<B>(K: Kernels<B>, A: (nat, nat) -> B, nb: nat, m: Memory<B>, n: (nat, nat) -> nat) {
    && Blocks(nb, m)
    && forall r: nat, c: nat :: r < nb && c < nb ==> n(r, c) <= c + 1 && m[(r, c)] == After(K, A, r, c, n(r, c))
  }

  function Bump(n: (nat, nat) -> nat, r: nat, c: nat): (nat, nat) -> nat {
    (x: nat, y: nat) => if x == r && y == c then n(x, y) + 1 else n(x, y)
  }

  /** A task whose inputs are ready writes the value that it writes in the sequential program. */
  lemma ExecReached<B>(K: Kernels<B>, A: (nat, nat) -> B, nb: nat, m: Memory<B>, n: (nat, nat) -> nat, t: Task)
    requires Reached(K, A, nb, m, n) && Valid(nb, t) && n(t.j, t.k) == t.i
    requires t.i < t.k ==> n(t.k, t.i) == t.i + 1 && n(t.j, t.i) == t.i + 1
    requires t.i == t.k && t.j > t.k ==> n(t.k, t.k) == t.k + 1
    ensures Reached(K, A, nb, Exec(K, nb, m, t), Bump(n, t.j, t.k))
  {
    var (k, j, i) := (t.k, t.j, t.i);
    var m', n' := Exec(K, nb, m, t), Bump(n, j, k);
    assert m[(j, k)] == After(K, A, j, k, i);
    if i < k {
      assert m[(k, i)] == After(K, A, k, i, i + 1);
      assert m[(j, i)] == After(K, A, j, i, i + 1);
    } else if j > k {
      assert m[(k, k)] == After(K, A, k, k, k + 1);
    }
    assert m'[(j, k)] == Val(K, A, k, j, i);
    hide Val;
    forall r: nat, c: nat | r < nb && c < nb ensures n'(r, c) <= c + 1 && m'[(r, c)] == After(K, A, r, c, n'(r, c)) {
      assert n(r, c) <= c + 1 && m[(r, c)] == After(K, A, r, c, n(r, c));
    }
  }

  // ----- declared dependencies

  datatype Direction = INPUT | OUTPUT
  datatype ParamInfo = ParamInfo(tag: nat, dir: Direction)

  /** The address of block (r, c) in the matrix. */
  function Addr(nb: nat, bs: nat, r: nat, c: nat): nat {
    r * bs * bs * nb + c * bs
  }

  lemma AddrUnique(nb: nat, bs: nat, r: nat, c: nat, r': nat, c': nat)
    requires bs > 0 && c < nb && c' < nb && Addr(nb, bs, r, c) == Addr(nb, bs, r', c')
    ensures r == r' && c == c'
  {
    if r < r' { AddrOrder(nb, bs, r, c, r', c'); }
    if r' < r { AddrOrder(nb, bs, r', c', r, c); }
    if c < c' { Times(c + 1, c', bs); Spread(c, 1, bs); }
    if c' < c { Times(c' + 1, c, bs); Spread(c', 1, bs); }
  }

  lemma AddrOrder(nb: nat, bs: nat, r: nat, c: nat, r': nat, c': nat)
    requires bs > 0 && c < nb && r < r'
    ensures Addr(nb, bs, r, c) < Addr(nb, bs, r', c')
  {
    RowIs(r, bs, nb);
    RowIs(r', bs, nb);
    Times(c + 1, nb, bs);
    Spread(c, 1, bs);
    RowHolds(bs, nb);
    RowOrder(r, r', bs * bs * nb, c * bs);
  }

  lemma RowHolds(bs: nat, nb: nat)
    requires bs > 0
    ensures nb * bs <= bs * bs * nb
  {
    Assoc(bs, bs, nb);
    Times(1, bs, bs * nb);
  }

  lemma RowOrder(r: nat, r': nat, row: nat, x: nat)
    requires r < r' && x < row
    ensures r * row + x < r' * row
  {
    Times(r + 1, r', row);
    Spread(r, 1, row);
  }

  lemma RowIs(r: nat, bs: nat, nb: nat)
    ensures r * bs * bs * nb == r * (bs * bs * nb)
  {
    assert r * bs * bs == r * (bs * bs);
    Assoc(r, bs * bs, nb);
  }

  lemma Assoc(a: nat, b: nat, c: nat)
    ensures a * b * c == a * (b * c)
  {
  }

  lemma Times(a: nat, b: nat, c: nat)
    requires a <= b
    ensures a * c <= b * c
  {
  }

  lemma Spread(a: nat, b: nat, c: nat)
    ensures (a + b) * c == a * c + b * c
  {
  }

  lemma PairUnique(w: nat, x: nat, y: nat, x': nat, y': nat)
    requires y < w && y' < w && x * w + y == x' * w + y'
    ensures x == x' && y == y'
  {
    if x < x' { RowOrder(x, x', w, y); }
    if x' < x { RowOrder(x', x, w, y'); }
  }

  /** Different blocks share no element: element (a, b) of a block lies a rows and b columns behind its address. */
  lemma BlocksDoNotOverlap(nb: nat, bs: nat, r: nat, c: nat, a: nat, b: nat, r': nat, c': nat, a': nat, b': nat)
    requires c < nb && c' < nb && a < bs && b < bs && a' < bs && b' < bs
    requires Addr(nb, bs, r, c) + a * (bs * nb) + b == Addr(nb, bs, r', c') + a' * (bs * nb) + b'
    ensures r == r' && c == c' && a == a' && b == b'
  {
    hide *;
    var x, y := ElementAt(nb, bs, r, c, a, b);
    var x', y' := ElementAt(nb, bs, r', c', a', b');
    PairUnique(bs * nb, x, y, x', y');
    PairUnique(bs, r, a, r', a');
    PairUnique(bs, c, b, c', b');
  }

  lemma ElementAt(nb: nat, bs: nat, r: nat, c: nat, a: nat, b: nat) returns (x: nat, y: nat)
    requires c < nb && a < bs && b < bs
    ensures x == r * bs + a && y == c * bs + b && y < bs * nb
    ensures Addr(nb, bs, r, c) + a * (bs * nb) + b == x * (bs * nb) + y
  {
    x, y := r * bs + a, c * bs + b;
    Assoc(r * bs, bs, nb);
    Spread(r * bs, a, bs * nb);
    Times(c + 1, nb, bs);
    Spread(c, 1, bs);
  }

  /** The parameters that a task declares. */
  function Params(nb: nat, bs: nat, t: Task): seq<ParamInfo> {
    var (k, j, i) := (t.k, t.j, t.i);
    if i < k then
      if j == k then
        [ParamInfo(Addr(nb, bs, k, k), INPUT), ParamInfo(Addr(nb, bs, k, i), INPUT),
         ParamInfo(Addr(nb, bs, k, k), OUTPUT)]
      else [ParamInfo(Addr(nb, bs, k, i), INPUT), ParamInfo(Addr(nb, bs, j, i), INPUT),
            ParamInfo(Addr(nb, bs, j, k), INPUT), ParamInfo(Addr(nb, bs, j, k), OUTPUT)]
    else
      if j == k then [ParamInfo(Addr(nb, bs, k, k), INPUT), ParamInfo(Addr(nb, bs, k, k), OUTPUT)]
      else [ParamInfo(Addr(nb, bs, k, k), INPUT), ParamInfo(Addr(nb, bs, j, k), INPUT),
            ParamInfo(Addr(nb, bs, j, k), OUTPUT)]
  }

  ghost predicate Uses(nb: nat, bs: nat, t: Task, tag: nat, dir: Direction) {
    ParamInfo(tag, dir) in Params(nb, bs, t)
  }

  /** u depends on t: t is the last task before u in the program that writes an address u reads or writes. */
  ghost predicate DependsOn(nb: nat, bs: nat, t: Task, u: Task) {
    && Valid(nb, t) && Valid(nb, u) && Before(t, u)
    && exists tag, dir :: Uses(nb, bs, u, tag, dir) && Uses(nb, bs, t, tag, OUTPUT)
                          && forall v :: Valid(nb, v) && Before(t, v) && Before(v, u) ==> !Uses(nb, bs, v, tag, OUTPUT)
  }

  /** A task writes its own block and no other. */
  lemma Writes(nb: nat, bs: nat, t: Task, tag: nat)
    requires Valid(nb, t)
    ensures Uses(nb, bs, t, tag, OUTPUT) <==> tag == Addr(nb, bs, t.j, t.k)
  {
    hide Addr;
    var (k, j, i) := (t.k, t.j, t.i);
    if i < k && j == k { assert Params(nb, bs, t)[2] == ParamInfo(Addr(nb, bs, k, k), OUTPUT); }
    else if i < k { assert Params(nb, bs, t)[3] == ParamInfo(Addr(nb, bs, j, k), OUTPUT); }
    else if j == k { assert Params(nb, bs, t)[1] == ParamInfo(Addr(nb, bs, k, k), OUTPUT); }
    else { assert Params(nb, bs, t)[2] == ParamInfo(Addr(nb, bs, j, k), OUTPUT); }
  }

  lemma Reads(nb: nat, bs: nat, t: Task)
    requires Valid(nb, t)
    ensures Uses(nb, bs, t, Addr(nb, bs, t.j, t.k), INPUT)
    ensures t.i < t.k ==>
            Uses(nb, bs, t, Addr(nb, bs, t.k, t.i), INPUT) && Uses(nb, bs, t, Addr(nb, bs, t.j, t.i), INPUT)
    ensures t.i == t.k ==> Uses(nb, bs, t, Addr(nb, bs, t.k, t.k), INPUT)
  {
    hide Addr;
    var (k, j, i) := (t.k, t.j, t.i);
    var p := Params(nb, bs, t);
    if i < k && j == k {
      assert p[0].tag == Addr(nb, bs, k, k) && p[1].tag == Addr(nb, bs, k, i);
    } else if i < k {
      assert p[0].tag == Addr(nb, bs, k, i) && p[1].tag == Addr(nb, bs, j, i) && p[2].tag == Addr(nb, bs, j, k);
    } else if j == k {
      assert p[0].tag == Addr(nb, bs, k, k);
    } else {
      assert p[0].tag == Addr(nb, bs, k, k) && p[1].tag == Addr(nb, bs, j, k);
    }
  }

  /** All writers of a block are its own tasks. */
  lemma OnlyOwn(nb: nat, bs: nat, t: Task, v: Task)
    requires bs > 0 && Valid(nb, t) && Valid(nb, v) && Uses(nb, bs, v, Addr(nb, bs, t.j, t.k), OUTPUT)
    ensures v == Task(t.k, t.j, v.i) && v.i <= t.k
  {
    Writes(nb, bs, v, Addr(nb, bs, t.j, t.k));
    hide *;
    ValidIs(nb, t);
    ValidIs(nb, v);
    AddrUnique(nb, bs, t.j, t.k, v.j, v.k);
  }

  lemma ValidIs(nb: nat, t: Task)
    requires Valid(nb, t)
    ensures t.i <= t.k <= t.j < nb
  {
  }

  /** u reads the block of t, and t is the last task that writes it before u. */
  lemma Depends(nb: nat, bs: nat, t: Task, u: Task)
    requires bs > 0 && Valid(nb, t) && Valid(nb, u) && Before(t, u)
    requires Uses(nb, bs, u, Addr(nb, bs, t.j, t.k), INPUT)
    requires forall i: nat :: i <= t.k && Before(t, Task(t.k, t.j, i)) ==> !Before(Task(t.k, t.j, i), u)
    ensures DependsOn(nb, bs, t, u)
  {
    var tag := Addr(nb, bs, t.j, t.k);
    Writes(nb, bs, t, tag);
    hide Addr, Params, Uses;
    forall v | Valid(nb, v) && Before(t, v) && Before(v, u) ensures !Uses(nb, bs, v, tag, OUTPUT) {
      if Uses(nb, bs, v, tag, OUTPUT) { OnlyOwn(nb, bs, t, v); }
    }
  }

  /** The tasks that t waits for: the one before it on its own block, and the last ones on the blocks it reads. */
  predicate Needs(t: Task, u: Task) {
    || (t.i > 0 && u == Task(t.k, t.j, t.i - 1))
    || (t.i < t.k && (u == Task(t.i, t.k, t.i) || u == Task(t.i, t.j, t.i)))
    || (t.i == t.k && t.j > t.k && u == Task(t.k, t.k, t.k))
  }

  /** A task depends on these tasks and on no others. */
  lemma Dependencies(nb: nat, bs: nat, t: Task, u: Task)
    requires bs > 0 && Valid(nb, t)
    ensures DependsOn(nb, bs, u, t) <==> Needs(t, u)
  {
    if Needs(t, u) {
      Reads(nb, bs, t);
      Depends(nb, bs, u, t);
    } else if DependsOn(nb, bs, u, t) {
      NoOthers(nb, bs, t, u);
    }
  }

  /** The tasks that are the last before t on a block that t uses, one for each such block. */
  lemma UsedBlocks(nb: nat, bs: nat, t: Task, tag: nat, dir: Direction) returns (b: Task)
    requires bs > 0 && Valid(nb, t) && Uses(nb, bs, t, tag, dir)
    ensures Valid(nb, b) && tag == Addr(nb, bs, b.j, b.k)
    ensures b == t || (Needs(t, b) && b.i == b.k)
  {
    hide Addr;
    b := t;
    if tag != Addr(nb, bs, t.j, t.k) {
      b := if t.i == t.k then Task(t.k, t.k, t.k)
           else if tag == Addr(nb, bs, t.k, t.i) then Task(t.i, t.k, t.i)
           else Task(t.i, t.j, t.i);
    }
  }

  /** Nobody writes the block in between, so u is that task. */
  lemma NoOthers(nb: nat, bs: nat, t: Task, u: Task)
    requires bs > 0 && Valid(nb, t) && DependsOn(nb, bs, u, t)
    ensures Needs(t, u)
  {
    var tag, dir :| Uses(nb, bs, t, tag, dir) && Uses(nb, bs, u, tag, OUTPUT)
      && forall v :: Valid(nb, v) && Before(u, v) && Before(v, t) ==> !Uses(nb, bs, v, tag, OUTPUT);
    var b := UsedBlocks(nb, bs, t, tag, dir);
    OnlyOwn(nb, bs, b, u);
    var v := if b == t then Task(t.k, t.j, t.i - 1) else b;
    Writes(nb, bs, v, tag);
  }

  /** No block is overwritten after another task has read it. */
  lemma NothingReadIsOverwritten(nb: nat, bs: nat, t: Task, u: Task, tag: nat)
    requires bs > 0 && Valid(nb, t) && Valid(nb, u) && Before(t, u)
    requires Uses(nb, bs, t, tag, INPUT) && !Uses(nb, bs, t, tag, OUTPUT)
    ensures !Uses(nb, bs, u, tag, OUTPUT)
  {
    Writes(nb, bs, t, tag);
    Writes(nb, bs, u, tag);
    var (k, j, i) := (t.k, t.j, t.i);
    if tag == Addr(nb, bs, u.j, u.k) {
      assert tag == Addr(nb, bs, k, i) || tag == Addr(nb, bs, j, i) || tag == Addr(nb, bs, k, k)
             || tag == Addr(nb, bs, j, k);
      if tag == Addr(nb, bs, k, i) { AddrUnique(nb, bs, k, i, u.j, u.k); }
      if tag == Addr(nb, bs, j, i) { AddrUnique(nb, bs, j, i, u.j, u.k); }
      if tag == Addr(nb, bs, k, k) { AddrUnique(nb, bs, k, k, u.j, u.k); }
    }
  }

  // ----- any legal schedule

  /** Every task runs at most once, and after the tasks it depends on. */
  ghost predicate Legal(nb: nat, bs: nat, ts: seq<Task>) {
    && (forall a :: 0 <= a < |ts| ==> Valid(nb, ts[a]))
    && (forall a, b :: 0 <= a < b < |ts| ==> ts[a] != ts[b])
    && (forall b, t :: 0 <= b < |ts| && DependsOn(nb, bs, t, ts[b]) ==> t in ts[..b])
  }

  function ExecAll<B>(K: Kernels<B>, nb: nat, m: Memory<B>, ts: seq<Task>): (m': Memory<B>)
    requires Blocks(nb, m) && forall a :: 0 <= a < |ts| ==> Valid(nb, ts[a])
    ensures Blocks(nb, m')
  {
    if ts == [] then m else Exec(K, nb, ExecAll(K, nb, m, ts[..|ts| - 1]), ts[|ts| - 1])
  }

  /** How many tasks of a block are among ts, if they are the first ones. */
  function Executed(ts: seq<Task>, r: nat, c: nat, n: nat): (x: nat)
    ensures x <= n
  {
    if n == 0 then 0 else if Task(c, r, n - 1) in ts then n else Executed(ts, r, c, n - 1)
  }

  function Counts(ts: seq<Task>): (nat, nat) -> nat {
    (r: nat, c: nat) => if c <= r then Executed(ts, r, c, c + 1) else 0
  }

  /** Tasks of one block are executed in order: the executed ones are the first ones. */
  ghost predicate Downward(ts: seq<Task>) {
    forall c: nat, r: nat, i: nat :: Task(c, r, i) in ts && i > 0 ==> Task(c, r, i - 1) in ts
  }

  lemma {:induction false} ExecutedIs(ts: seq<Task>, r: nat, c: nat, n: nat, i: nat)
    requires Downward(ts) && i < n
    ensures Task(c, r, i) in ts <==> i < Executed(ts, r, c, n)
  {
    if Task(c, r, n - 1) in ts {
      DownTo(ts, r, c, n - 1, i);
    } else if i < n - 1 {
      ExecutedIs(ts, r, c, n - 1, i);
    }
  }

  lemma {:induction false} DownTo(ts: seq<Task>, r: nat, c: nat, n: nat, i: nat)
    requires Downward(ts) && Task(c, r, n) in ts && i <= n
    ensures Task(c, r, i) in ts
    decreases n
  {
    if i < n {
      assert Task(c, r, n - 1) in ts;
      DownTo(ts, r, c, n - 1, i);
    }
  }

  lemma LegalIsDownward(nb: nat, bs: nat, ts: seq<Task>)
    requires bs > 0 && Legal(nb, bs, ts)
    ensures Downward(ts)
  {
    forall c: nat, r: nat, i: nat | Task(c, r, i) in ts && i > 0 ensures Task(c, r, i - 1) in ts {
      var b :| 0 <= b < |ts| && ts[b] == Task(c, r, i);
      Dependencies(nb, bs, ts[b], Task(c, r, i - 1));
      assert Task(c, r, i - 1) in ts[..b];
    }
  }

  lemma LegalPrefix(nb: nat, bs: nat, ts: seq<Task>, b: nat)
    requires Legal(nb, bs, ts) && b <= |ts|
    ensures Legal(nb, bs, ts[..b])
  {
    var us := ts[..b];
    forall a, t | 0 <= a < |us| && DependsOn(nb, bs, t, us[a]) ensures t in us[..a] {
      assert us[a] == ts[a] && us[..a] == ts[..a];
    }
  }

  lemma {:induction false} SameExecuted(ts: seq<Task>, us: seq<Task>, t: Task, r: nat, c: nat, n: nat)
    requires us == ts + [t] && !(t.k == c && t.j == r)
    ensures Executed(ts, r, c, n) == Executed(us, r, c, n)
  {
    if n > 0 { SameExecuted(ts, us, t, r, c, n - 1); }
  }

  lemma NotAbove(ts: seq<Task>, r: nat, c: nat, i: nat)
    requires Downward(ts) && Task(c, r, i) !in ts
    ensures Task(c, r, i + 1) !in ts
  {
  }

  /** A new task of a block is the next one of that block. */
  lemma NextOfBlock(ts: seq<Task>, us: seq<Task>, t: Task)
    requires Downward(ts) && Downward(us) && us == ts + [t] && t !in ts && t.i <= t.k
    ensures Executed(ts, t.j, t.k, t.k + 1) == t.i && Executed(us, t.j, t.k, t.k + 1) == t.i + 1
  {
    var (k, j, i) := (t.k, t.j, t.i);
    ExecutedIs(ts, j, k, k + 1, i);
    ExecutedIs(us, j, k, k + 1, i);
    assert t in us && t == Task(k, j, i);
    if i > 0 {
      assert Task(k, j, i - 1) in us;
      ExecutedIs(ts, j, k, k + 1, i - 1);
    }
    if i < k {
      NotAbove(ts, j, k, i);
      ExecutedIs(us, j, k, k + 1, i + 1);
    }
  }

  lemma CountsAfter(ts: seq<Task>, us: seq<Task>, t: Task)
    requires Downward(ts) && Downward(us) && us == ts + [t] && t !in ts && t.i <= t.k <= t.j
    ensures forall r: nat, c: nat :: Counts(us)(r, c) == Bump(Counts(ts), t.j, t.k)(r, c)
    ensures Counts(ts)(t.j, t.k) == t.i
  {
    NextOfBlock(ts, us, t);
    forall r: nat, c: nat ensures Counts(us)(r, c) == Bump(Counts(ts), t.j, t.k)(r, c) {
      if !(t.k == c && t.j == r) { SameExecuted(ts, us, t, r, c, c + 1); }
    }
  }

  /** A finished block of a legal prefix. */
  lemma Finished(ts: seq<Task>, c: nat, r: nat)
    requires Downward(ts) && Task(c, r, c) in ts && c <= r
    ensures Counts(ts)(r, c) == c + 1
  {
  }

  lemma SameReached<B>(K: Kernels<B>, A: (nat, nat) -> B, nb: nat, m: Memory<B>, n: (nat, nat) -> nat,
                       n': (nat, nat) -> nat)
    requires Reached(K, A, nb, m, n) && forall r: nat, c: nat :: n'(r, c) == n(r, c)
    ensures Reached(K, A, nb, m, n')
  {
    hide After;
    forall r: nat, c: nat | r < nb && c < nb ensures n'(r, c) <= c + 1 && m[(r, c)] == After(K, A, r, c, n'(r, c)) {
      assert n(r, c) <= c + 1 && m[(r, c)] == After(K, A, r, c, n(r, c));
    }
  }

  lemma Untouched<B>(K: Kernels<B>, A: (nat, nat) -> B, nb: nat, m: Memory<B>)
    requires Blocks(nb, m) && forall r: nat, c: nat :: r < nb && c < nb ==> m[(r, c)] == A(r, c)
    ensures Reached(K, A, nb, m, Counts([]))
  {
    forall r: nat, c: nat ensures Counts([])(r, c) == 0 { NoneExecuted(r, c, c + 1); }
  }

  lemma {:induction false} NoneExecuted(r: nat, c: nat, n: nat)
    ensures Executed([], r, c, n) == 0
  {
    if n > 0 { NoneExecuted(r, c, n - 1); }
  }

  /** Whatever legal order is taken, and however far: each block holds what the sequential program makes of it
      in as many of its tasks as have run. */
  lemma {:induction false} LegalReaches<B>(K: Kernels<B>, A: (nat, nat) -> B, nb: nat, bs: nat, m: Memory<B>,
                                           ts: seq<Task>)
    requires bs > 0 && Legal(nb, bs, ts) && Blocks(nb, m)
             && forall r: nat, c: nat :: r < nb && c < nb ==> m[(r, c)] == A(r, c)
    ensures Reached(K, A, nb, ExecAll(K, nb, m, ts), Counts(ts))
    decreases |ts|
  {
    if ts == [] {
      Untouched(K, A, nb, m);
    } else {
      var us, t := ts[..|ts| - 1], ts[|ts| - 1];
      LegalPrefix(nb, bs, ts, |ts| - 1);
      LegalReaches(K, A, nb, bs, m, us);
      LegalIsDownward(nb, bs, us);
      LegalIsDownward(nb, bs, ts);
      assert ts == us + [t] && t !in us;
      CountsAfter(us, ts, t);
      InputsReady(nb, bs, ts);
      var m' := ExecAll(K, nb, m, us);
      hide Reached, Counts, Bump, Exec, Legal, Downward;
      ExecReached(K, A, nb, m', Counts(us), t);
      SameReached(K, A, nb, Exec(K, nb, m', t), Bump(Counts(us), t.j, t.k), Counts(ts));
    }
  }

  lemma InputsReady(nb: nat, bs: nat, ts: seq<Task>)
    requires bs > 0 && ts != [] && Legal(nb, bs, ts)
    ensures var us, t := ts[..|ts| - 1], ts[|ts| - 1];
            && Valid(nb, t)
            && (t.i < t.k ==> Counts(us)(t.k, t.i) == t.i + 1 && Counts(us)(t.j, t.i) == t.i + 1)
            && (t.i == t.k && t.j > t.k ==> Counts(us)(t.k, t.k) == t.k + 1)
  {
    var b := |ts| - 1;
    var us, t := ts[..b], ts[b];
    LegalPrefix(nb, bs, ts, b);
    LegalIsDownward(nb, bs, us);
    if t.i < t.k {
      Dependencies(nb, bs, t, Task(t.i, t.k, t.i));
      Dependencies(nb, bs, t, Task(t.i, t.j, t.i));
    } else if t.j > t.k {
      Dependencies(nb, bs, t, Task(t.k, t.k, t.k));
    }
    hide DependsOn, Counts, Downward;
    if t.i < t.k {
      Finished(us, t.i, t.k);
      Finished(us, t.i, t.j);
    } else if t.j > t.k {
      Finished(us, t.k, t.k);
    }
  }

  /** All tasks of the program have been run. */
  ghost predicate Complete(nb: nat, ts: seq<Task>) {
    forall t :: Valid(nb, t) ==> t in ts
  }

  /** The factorization: finished blocks on and below the diagonal, untouched ones above it. */
  ghost predicate Factored<B>(K: Kernels<B>, A: (nat, nat) -> B, nb: nat, m: Memory<B>) {
    && Blocks(nb, m)
    && forall r: nat, c: nat :: r < nb && c < nb ==> m[(r, c)] == if c <= r then Val(K, A, c, r, c) else A(r, c)
  }

  lemma NoCount(ts: seq<Task>, r: nat, c: nat)
    requires c > r
    ensures Counts(ts)(r, c) == 0
  {
  }

  /** Every complete legal schedule computes the factorization. */
  lemma ScheduleFactors<B>(K: Kernels<B>, A: (nat, nat) -> B, nb: nat, bs: nat, m: Memory<B>, ts: seq<Task>)
    requires bs > 0 && Legal(nb, bs, ts) && Complete(nb, ts)
    requires Blocks(nb, m) && forall r: nat, c: nat :: r < nb && c < nb ==> m[(r, c)] == A(r, c)
    ensures Factored(K, A, nb, ExecAll(K, nb, m, ts))
  {
    hide *;
    LegalReaches(K, A, nb, bs, m, ts);
    LegalIsDownward(nb, bs, ts);
    LegalIsValid(nb, bs, ts);
    forall r: nat, c: nat | r < nb && c <= r ensures Counts(ts)(r, c) == c + 1 {
      LastTask(nb, ts, r, c);
      Finished(ts, c, r);
    }
    forall r: nat, c: nat | c > r ensures Counts(ts)(r, c) == 0 { NoCount(ts, r, c); }
    AllFinished(K, A, nb, ExecAll(K, nb, m, ts), Counts(ts));
  }

  lemma LegalIsValid(nb: nat, bs: nat, ts: seq<Task>)
    requires Legal(nb, bs, ts)
    ensures forall a :: 0 <= a < |ts| ==> Valid(nb, ts[a])
  {
  }

  lemma LastTask(nb: nat, ts: seq<Task>, r: nat, c: nat)
    requires Complete(nb, ts) && c <= r < nb
    ensures Task(c, r, c) in ts
  {
    assert Valid(nb, Task(c, r, c));
  }

  lemma AllFinished<B>(K: Kernels<B>, A: (nat, nat) -> B, nb: nat, m: Memory<B>, n: (nat, nat) -> nat)
    requires Reached(K, A, nb, m, n)
    requires forall r: nat, c: nat :: r < nb && c <= r ==> n(r, c) == c + 1
    requires forall r: nat, c: nat :: c > r ==> n(r, c) == 0
    ensures Factored(K, A, nb, m)
  {
    hide Val;
    forall r: nat, c: nat | r < nb && c < nb ensures m[(r, c)] == if c <= r then Val(K, A, c, r, c) else A(r, c) {
      assert m[(r, c)] == After(K, A, r, c, n(r, c));
    }
  }

  // ----- the programs

  /** The factorization determines every block. */
  lemma FactoredIsUnique<B>(K: Kernels<B>, A: (nat, nat) -> B, nb: nat, m: Memory<B>, m': Memory<B>)
    requires Factored(K, A, nb, m) && Factored(K, A, nb, m')
    ensures forall r: nat, c: nat :: r < nb && c < nb ==> m[(r, c)] == m'[(r, c)]
  {
    hide Val;
  }

  /** ts lists the tasks before the bound, in program order. */
  ghost predicate Listed(nb: nat, ts: seq<Task>, bound: Task) {
    && (forall t :: t in ts <==> Valid(nb, t) && Before(t, bound))
    && (forall a, b :: 0 <= a < b < |ts| ==> Before(ts[a], ts[b]))
  }

  lemma ListNext(nb: nat, ts: seq<Task>, bound: Task, next: Task)
    requires Listed(nb, ts, bound) && Valid(nb, bound)
    requires forall t :: Valid(nb, t) && Before(t, next) <==> Valid(nb, t) && (Before(t, bound) || t == bound)
    ensures Listed(nb, ts + [bound], next)
  {
    var us := ts + [bound];
    forall a, b | 0 <= a < b < |us| ensures Before(us[a], us[b]) {
      if b == |ts| { assert us[a] in ts; }
    }
    forall t ensures t in us <==> Valid(nb, t) && Before(t, next) {
      assert t in us <==> t in ts || t == bound;
    }
  }

  lemma ListSame(nb: nat, ts: seq<Task>, bound: Task, next: Task)
    requires Listed(nb, ts, bound)
    requires forall t :: Valid(nb, t) ==> (Before(t, next) <==> Before(t, bound))
    ensures Listed(nb, ts, next)
  {
  }

  /** The number of tasks of the first k columns. */
  function ColumnTasks(nb: nat, k: nat): int {
    if k == 0 then 0 else ColumnTasks(nb, k - 1) + k * (nb - k + 1)
  }

  lemma {:induction false} ColumnTasksIs(nb: nat, k: nat)
    ensures 6 * ColumnTasks(nb, k) == k * (k + 1) * (3 * nb + 2 - 2 * k)
  {
    if k > 0 {
      ColumnTasksIs(nb, k - 1);
      ColumnStep(k, nb);
    }
  }

  lemma ColumnStep(k: int, nb: int)
    ensures (k - 1) * k * (3 * nb + 2 - 2 * (k - 1)) + 6 * (k * (nb - k + 1)) == k * (k + 1) * (3 * nb + 2 - 2 * k)
  {
    var x := 3 * nb + 2 - 2 * k;
    assert (k - 1) * k * (x + 2) == k * ((k - 1) * (x + 2)) by { Rearrange(k - 1, k, x + 2); }
    assert k * (k + 1) * x == k * ((k + 1) * x) by { Associate(k, k + 1, x); }
    assert (k - 1) * (x + 2) + 6 * (nb - k + 1) == (k + 1) * x;
  }

  lemma Rearrange(a: int, b: int, c: int)
    ensures a * b * c == b * (a * c)
  {
  }

  lemma Associate(a: int, b: int, c: int)
    ensures a * b * c == a * (b * c)
  {
  }

  lemma ProgramOrderIsLegal(nb: nat, bs: nat, ts: seq<Task>, bound: Task)
    requires Listed(nb, ts, bound)
    ensures Legal(nb, bs, ts)
  {
    forall b, t | 0 <= b < |ts| && DependsOn(nb, bs, t, ts[b]) ensures t in ts[..b] {
      assert ts[b] in ts;
      assert Before(t, bound);
      var a :| 0 <= a < |ts| && ts[a] == t;
      InOrder(ts, a, b);
    }
  }

  lemma InOrder(ts: seq<Task>, a: nat, b: nat)
    requires a < |ts| && b < |ts| && Before(ts[a], ts[b])
    requires forall x, y :: 0 <= x < y < |ts| ==> Before(ts[x], ts[y])
    ensures a < b
  {
  }

  /** The list and the count while the program runs. */
  ghost predicate Generated(nb: nat, ts: seq<Task>, bound: Task, num: nat, before: int) {
    Listed(nb, ts, bound) && |ts| == num == before
  }

  lemma Generate(nb: nat, ts: seq<Task>, bound: Task, num: nat, before: int, next: Task)
    requires Generated(nb, ts, bound, num, before) && Valid(nb, bound)
    requires forall t :: Valid(nb, t) && Before(t, next) <==> Valid(nb, t) && (Before(t, bound) || t == bound)
    ensures Generated(nb, ts + [bound], next, num + 1, before + 1)
  {
    ListNext(nb, ts, bound, next);
  }

  lemma GenerateSame(nb: nat, ts: seq<Task>, bound: Task, num: nat, before: int, next: Task)
    requires Generated(nb, ts, bound, num, before)
    requires forall t :: Valid(nb, t) ==> (Before(t, next) <==> Before(t, bound))
    ensures Generated(nb, ts, next, num, before)
  {
    ListSame(nb, ts, bound, next);
  }

  /** The bounds of the loops name the same place in the program. */
  lemma NextBounds(nb: nat, ts: seq<Task>, num: nat, before: int, k: nat, j: nat)
    requires k < nb
    ensures Generated(nb, ts, Task(k, j, k + 1), num, before) ==> Generated(nb, ts, Task(k, j + 1, 0), num, before)
    ensures Generated(nb, ts, Task(k, nb, 0), num, before) ==> Generated(nb, ts, Task(k + 1, k + 1, 0), num, before)
  {
    if Generated(nb, ts, Task(k, j, k + 1), num, before) {
      GenerateSame(nb, ts, Task(k, j, k + 1), num, before, Task(k, j + 1, 0));
    }
    if Generated(nb, ts, Task(k, nb, 0), num, before) {
      GenerateSame(nb, ts, Task(k, nb, 0), num, before, Task(k + 1, k + 1, 0));
    }
  }

  lemma NothingGenerated(nb: nat)
    ensures Generated(nb, [], Task(0, 0, 0), 0, ColumnTasks(nb, 0))
  {
  }

  lemma AllGenerated(nb: nat, ts: seq<Task>, num: nat)
    requires Generated(nb, ts, Task(nb, nb, 0), num, ColumnTasks(nb, nb))
    ensures Complete(nb, ts) && Listed(nb, ts, Task(nb, nb, 0)) && num == |ts| && 6 * num == nb * (nb + 1) * (nb + 2)
    ensures forall a, b :: 0 <= a < b < |ts| ==> Before(ts[a], ts[b])
  {
    ColumnTasksIs(nb, nb);
  }

  ghost predicate Declared(nb: nat, bs: nat, ts: seq<Task>, params: seq<seq<ParamInfo>>) {
    |params| == |ts| && forall x :: 0 <= x < |ts| ==> params[x] == Params(nb, bs, ts[x])
  }

  /** taskGen: the tasks in program order, with their declared parameters. */
  method TaskGen(nb: nat, bs: nat) returns (ts: seq<Task>, params: seq<seq<ParamInfo>>, numtasks: nat)
    ensures Complete(nb, ts) && Legal(nb, bs, ts) && Declared(nb, bs, ts, params)
    ensures forall a, b :: 0 <= a < b < |ts| ==> Before(ts[a], ts[b])
    ensures numtasks == |ts| && 6 * numtasks == nb * (nb + 1) * (nb + 2)
  {
    hide *;
    ts, params, numtasks := [], [], 0;
    NothingGenerated(nb);
    NothingDeclared(nb, bs);
    for k := 0 to nb
      invariant Generated(nb, ts, Task(k, k, 0), numtasks, ColumnTasks(nb, k)) && Declared(nb, bs, ts, params)
    {
      ts, params, numtasks := GenRow(nb, bs, k, k, ts, params, numtasks, ColumnTasks(nb, k));
      NextBounds(nb, ts, numtasks, ColumnTasks(nb, k) + (k + 1), k, k);
      RowMore(0, k + 1);
      for j := k + 1 to nb
        invariant Generated(nb, ts, Task(k, j, 0), numtasks, ColumnTasks(nb, k) + (j - k) * (k + 1))
                  && Declared(nb, bs, ts, params)
      {
        ghost var before := ColumnTasks(nb, k) + (j - k) * (k + 1);
        ts, params, numtasks := GenRow(nb, bs, k, j, ts, params, numtasks, before);
        NextBounds(nb, ts, numtasks, before + (k + 1), k, j);
        RowMore(j - k, k + 1);
      }
      NextBounds(nb, ts, numtasks, ColumnTasks(nb, k) + (nb - k) * (k + 1), k, k);
      ColumnMore(nb, k);
    }
    AllGenerated(nb, ts, numtasks);
    ProgramOrderIsLegal(nb, bs, ts, Task(nb, nb, 0));
  }

  lemma NothingDeclared(nb: nat, bs: nat)
    ensures Declared(nb, bs, [], [])
  {
  }

  lemma RowMore(a: nat, b: nat)
    ensures (a + 1) * b == a * b + b
  {
  }

  lemma ColumnMore(nb: nat, k: nat)
    requires k < nb
    ensures ColumnTasks(nb, k + 1) == ColumnTasks(nb, k) + (nb - k) * (k + 1)
  {
  }

  /** The tasks of block (j, k). */
  method GenRow(nb: nat, bs: nat, k: nat, j: nat, ts0: seq<Task>, params0: seq<seq<ParamInfo>>, numtasks0: nat,
                ghost before: int)
    returns (ts: seq<Task>, params: seq<seq<ParamInfo>>, numtasks: nat)
    requires k <= j < nb && Generated(nb, ts0, Task(k, j, 0), numtasks0, before) && Declared(nb, bs, ts0, params0)
    ensures Generated(nb, ts, Task(k, j, k + 1), numtasks, before + (k + 1)) && Declared(nb, bs, ts, params)
  {
    ts, params, numtasks := ts0, params0, numtasks0;
    for i := 0 to k
      invariant Generated(nb, ts, Task(k, j, i), numtasks, before + i) && Declared(nb, bs, ts, params)
    {
      var param := UpdateParams(nb, bs, k, j, i);
      Generate(nb, ts, Task(k, j, i), numtasks, before + i, Task(k, j, i + 1));
      hide *;
      DeclareOne(nb, bs, ts, params, Task(k, j, i), param);
      ts, params, numtasks := ts + [Task(k, j, i)], params + [param], numtasks + 1;
    }
    var param := FinishParams(nb, bs, k, j);
    Generate(nb, ts, Task(k, j, k), numtasks, before + k, Task(k, j, k + 1));
    hide *;
    DeclareOne(nb, bs, ts, params, Task(k, j, k), param);
    ts, params, numtasks := ts + [Task(k, j, k)], params + [param], numtasks + 1;
  }

  lemma AddrIs(nb: nat, bs: nat)
    ensures forall r: nat, c: nat {:trigger Addr(nb, bs, r, c)} :: Addr(nb, bs, r, c) == r * bs * bs * nb + c * bs
  {
  }

  lemma UpdateParamsAre(nb: nat, bs: nat, k: nat, j: nat, i: nat)
    requires i < k <= j
    ensures Params(nb, bs, Task(k, j, i)) ==
            if j == k then
              [ParamInfo(Addr(nb, bs, k, k), INPUT), ParamInfo(Addr(nb, bs, k, i), INPUT),
               ParamInfo(Addr(nb, bs, k, k), OUTPUT)]
            else [ParamInfo(Addr(nb, bs, k, i), INPUT), ParamInfo(Addr(nb, bs, j, i), INPUT),
                  ParamInfo(Addr(nb, bs, j, k), INPUT), ParamInfo(Addr(nb, bs, j, k), OUTPUT)]
  {
    hide Addr;
  }

  /** The parameters of F_CHERK or F_CGEMM. */
  method UpdateParams(nb: nat, bs: nat, k: nat, j: nat, i: nat) returns (param: seq<ParamInfo>)
    requires i < k <= j
    ensures param == Params(nb, bs, Task(k, j, i))
  {
    hide *;
    UpdateParamsAre(nb, bs, k, j, i);
    AddrIs(nb, bs);
    if j == k {
      param := [ParamInfo(k * bs * bs * nb + k * bs, INPUT), ParamInfo(k * bs * bs * nb + i * bs, INPUT),
                ParamInfo(k * bs * bs * nb + k * bs, OUTPUT)];
    } else {
      param := [ParamInfo(k * bs * bs * nb + i * bs, INPUT), ParamInfo(j * bs * bs * nb + i * bs, INPUT),
                ParamInfo(j * bs * bs * nb + k * bs, INPUT), ParamInfo(j * bs * bs * nb + k * bs, OUTPUT)];
    }
  }

  /** The parameters of F_CPOTF2 or F_CTRSM. */
  method FinishParams(nb: nat, bs: nat, k: nat, j: nat) returns (param: seq<ParamInfo>)
    requires k <= j
    ensures param == Params(nb, bs, Task(k, j, k))
  {
    if j == k {
      param := [ParamInfo(k * bs * bs * nb + k * bs, INPUT), ParamInfo(k * bs * bs * nb + k * bs, OUTPUT)];
    } else {
      param := [ParamInfo(k * bs * bs * nb + k * bs, INPUT), ParamInfo(j * bs * bs * nb + k * bs, INPUT),
                ParamInfo(j * bs * bs * nb + k * bs, OUTPUT)];
    }
  }

  lemma DeclareOne(nb: nat, bs: nat, ts: seq<Task>, params: seq<seq<ParamInfo>>, t: Task, param: seq<ParamInfo>)
    requires Declared(nb, bs, ts, params) && param == Params(nb, bs, t)
    ensures Declared(nb, bs, ts + [t], params + [param])
  {
  }

  ghost function Contents<B>(M: array2<B>): Memory<B>
    reads M
  {
    map r: nat, c: nat | r < M.Length0 && c < M.Length1 :: (r, c) := M[r, c]
  }

  /** cholSeq. It leaves what every complete legal schedule of the dataflow version leaves. */
  method CholSeq<B>(K: Kernels<B>, M: array2<B>, nb: nat, ghost A: (nat, nat) -> B) returns (numtasks: nat)
    requires M.Length0 == M.Length1 == nb && forall r: nat, c: nat :: r < nb && c < nb ==> M[r, c] == A(r, c)
    modifies M
    ensures Factored(K, A, nb, Contents(M))
    ensures 6 * numtasks == nb * (nb + 1) * (nb + 2)
  {
    hide *;
    ghost var m := Contents(M);
    ghost var ts: seq<Task> := [];
    numtasks := 0;
    ContentsAre(M, nb);
    NothingGenerated(nb);
    NothingRan(K, nb, m);
    for k := 0 to nb
      invariant Generated(nb, ts, Task(k, k, 0), numtasks, ColumnTasks(nb, k)) && Ran(K, nb, m, ts, Contents(M))
    {
      ts, numtasks := RunBlock(K, M, nb, k, k, m, ts, numtasks, ColumnTasks(nb, k));
      NextBounds(nb, ts, numtasks, ColumnTasks(nb, k) + (k + 1), k, k);
      RowMore(0, k + 1);
      for j := k + 1 to nb
        invariant Generated(nb, ts, Task(k, j, 0), numtasks, ColumnTasks(nb, k) + (j - k) * (k + 1))
                  && Ran(K, nb, m, ts, Contents(M))
      {
        ghost var before := ColumnTasks(nb, k) + (j - k) * (k + 1);
        ts, numtasks := RunBlock(K, M, nb, k, j, m, ts, numtasks, before);
        NextBounds(nb, ts, numtasks, before + (k + 1), k, j);
        RowMore(j - k, k + 1);
      }
      NextBounds(nb, ts, numtasks, ColumnTasks(nb, k) + (nb - k) * (k + 1), k, k);
      ColumnMore(nb, k);
    }
    AllGenerated(nb, ts, numtasks);
    ProgramOrderIsLegal(nb, 1, ts, Task(nb, nb, 0));
    ScheduleFactors(K, A, nb, 1, m, ts);
    RanIs(K, nb, m, ts, Contents(M));
  }

  lemma ContentsAre<B>(M: array2<B>, nb: nat)
    requires M.Length0 == M.Length1 == nb
    ensures Blocks(nb, Contents(M)) && forall r: nat, c: nat :: r < nb && c < nb ==> Contents(M)[(r, c)] == M[r, c]
  {
  }

  lemma NothingRan<B>(K: Kernels<B>, nb: nat, m: Memory<B>)
    requires Blocks(nb, m)
    ensures Ran(K, nb, m, [], m)
  {
  }

  lemma RanIs<B>(K: Kernels<B>, nb: nat, m: Memory<B>, ts: seq<Task>, now: Memory<B>)
    requires Ran(K, nb, m, ts, now)
    ensures Blocks(nb, m) && (forall a :: 0 <= a < |ts| ==> Valid(nb, ts[a])) && now == ExecAll(K, nb, m, ts)
  {
  }

  ghost predicate Ran<B>(K: Kernels<B>, nb: nat, m: Memory<B>, ts: seq<Task>, now: Memory<B>) {
    && Blocks(nb, m) && (forall a :: 0 <= a < |ts| ==> Valid(nb, ts[a])) && now == ExecAll(K, nb, m, ts)
  }

  lemma RanOne<B>(K: Kernels<B>, nb: nat, m: Memory<B>, ts: seq<Task>, now: Memory<B>, t: Task)
    requires Ran(K, nb, m, ts, now) && Valid(nb, t)
    ensures Blocks(nb, now) && Ran(K, nb, m, ts + [t], Exec(K, nb, now, t))
  {
    var us := ts + [t];
    assert us[..|us| - 1] == ts && us[|us| - 1] == t;
  }

  /** The kernel calls on block (j, k). */
  method RunBlock<B>(K: Kernels<B>, M: array2<B>, nb: nat, k: nat, j: nat, ghost m: Memory<B>, ghost ts0: seq<Task>,
                     numtasks0: nat, ghost before: int)
    returns (ghost ts: seq<Task>, numtasks: nat)
    requires M.Length0 == M.Length1 == nb && k <= j < nb && Generated(nb, ts0, Task(k, j, 0), numtasks0, before)
             && Ran(K, nb, m, ts0, Contents(M))
    modifies M
    ensures Generated(nb, ts, Task(k, j, k + 1), numtasks, before + (k + 1)) && Ran(K, nb, m, ts, Contents(M))
  {
    ts, numtasks := ts0, numtasks0;
    for i := 0 to k
      invariant Generated(nb, ts, Task(k, j, i), numtasks, before + i) && Ran(K, nb, m, ts, Contents(M))
    {
      RunKernel(K, M, nb, k, j, i, m, ts);
      Generate(nb, ts, Task(k, j, i), numtasks, before + i, Task(k, j, i + 1));
      hide *;
      ts, numtasks := ts + [Task(k, j, i)], numtasks + 1;
    }
    RunKernel(K, M, nb, k, j, k, m, ts);
    Generate(nb, ts, Task(k, j, k), numtasks, before + k, Task(k, j, k + 1));
    hide *;
    ts, numtasks := ts + [Task(k, j, k)], numtasks + 1;
  }

  /** F_CHERK, F_CGEMM, F_CPOTF2 or F_CTRSM on its blocks. */
  method RunKernel<B>(K: Kernels<B>, M: array2<B>, nb: nat, k: nat, j: nat, i: nat, ghost m: Memory<B>,
                      ghost ts: seq<Task>)
    requires M.Length0 == M.Length1 == nb && i <= k <= j < nb && Ran(K, nb, m, ts, Contents(M))
    modifies M
    ensures Ran(K, nb, m, ts + [Task(k, j, i)], Contents(M))
  {
    ghost var now := Contents(M);
    RanOne(K, nb, m, ts, now, Task(k, j, i));
    var x := CallKernel(K, M, nb, k, j, i);
    StoreBlock(M, j, k, x);
    ExecIs(K, nb, now, Task(k, j, i));
    hide *;
  }

  lemma ExecIs<B>(K: Kernels<B>, nb: nat, m: Memory<B>, t: Task)
    requires Blocks(nb, m) && Valid(nb, t)
    ensures Exec(K, nb, m, t) == m[(t.j, t.k) := NewBlock(K, nb, m, t)]
  {
  }

  method StoreBlock<B>(M: array2<B>, r: nat, c: nat, x: B)
    requires r < M.Length0 && c < M.Length1
    modifies M
    ensures Contents(M) == old(Contents(M))[(r, c) := x]
  {
    M[r, c] := x;
  }

  method CallKernel<B>(K: Kernels<B>, M: array2<B>, nb: nat, k: nat, j: nat, i: nat) returns (x: B)
    requires M.Length0 == M.Length1 == nb && i <= k <= j < nb
    ensures Blocks(nb, Contents(M)) && x == NewBlock(K, nb, Contents(M), Task(k, j, i))
  {
    if i < k {
      if j == k {
        x := K.herk(M[k, k], M[k, i]);
      } else {
        x := K.gemm(M[k, i], M[j, i], M[j, k]);
      }
    } else {
      if j == k {
        x := K.potf2(M[k, k]);
      } else {
        x := K.trsm(M[k, k], M[j, k]);
      }
    }
  }

  /** The dataflow program in any legal order, next to the sequential one: the same tasks, the same blocks. */
  method DataflowIsSequential<B>(K: Kernels<B>, M: array2<B>, nb: nat, bs: nat, ghost A: (nat, nat) -> B,
                                 ghost m: Memory<B>, ghost order: seq<Task>)
    returns (numtasks: nat)
    requires bs > 0 && M.Length0 == M.Length1 == nb && forall r: nat, c: nat :: r < nb && c < nb ==> M[r, c] == A(r, c)
    requires Blocks(nb, m) && forall r: nat, c: nat :: r < nb && c < nb ==> m[(r, c)] == A(r, c)
    requires Legal(nb, bs, order) && Complete(nb, order)
    modifies M
    ensures forall r: nat, c: nat :: r < nb && c < nb ==> M[r, c] == ExecAll(K, nb, m, order)[(r, c)]
  {
    numtasks := CholSeq(K, M, nb, A);
    ScheduleFactors(K, A, nb, bs, m, order);
    FactoredIsUnique(K, A, nb, Contents(M), ExecAll(K, nb, m, order));
    hide Val, ExecAll;
    forall r: nat, c: nat | r < nb && c < nb ensures M[r, c] == ExecAll(K, nb, m, order)[(r, c)] {
      assert Contents(M)[(r, c)] == M[r, c];
    }
  }
}
