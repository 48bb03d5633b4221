/** The farm version of the wavefront, over all interleavings. */
module WavefrontFarm {
  // An emitter hands out the parts of one diagonal at a time, workers fill in cells, and completed tasks flow back. The
  // emitter and the worker are programs; their interleavings are the runs of a state machine whose steps are single
  // cells and single calls of the emitter.

  import opened Wrappers
  import opened Wavefront

  datatype Task = Task(diagonal: nat, from: nat, to: nat, completed: bool)

  /** The parts of a diagonal of m cells: consecutive, non-empty, at most one per worker, sizes differing by at most
      one. */
  ghost predicate Partition(ps: seq<Task>, diag: nat, m: nat, nw: nat) {
    && 0 < |ps| <= nw && ps[0].from == 0 && ps[|ps| - 1].to == m
    && (forall x :: 0 <= x < |ps| ==> ps[x].diagonal == diag && ps[x].from < ps[x].to <= m && !ps[x].completed)
    && (forall x, y :: 0 <= x && y == x + 1 < |ps| ==> ps[x].to == ps[y].from)
    && (forall x, y :: 0 <= x < |ps| && 0 <= y < |ps| ==> (ps[x].to - ps[x].from) - (ps[y].to - ps[y].from) <= 1)
  }

  datatype EmitterState = EmitterState(sizeM: nat, nw: nat, send: nat, done: nat, diag: nat)

  /** What one call of the emitter does: count a completed task, and when all are back go on to the next diagonal or
      end. */
  ghost predicate Svc(e: EmitterState, task: Option<Task>, e': EmitterState, out: seq<Task>, eos: bool) {
    var done := e.done + if task.Some? && task.value.completed then 1 else 0;
    var back := if task.Some? && !task.value.completed then [task.value] else [];
    if e.send == done then
      && e'.sizeM == e.sizeM && e'.nw == e.nw && e'.diag == e.diag + 1 && e'.done == 0
      && eos == (e'.diag >= e.sizeM)
      && |back| + e'.send == |out| && out[..|back|] == back
      && if eos then e'.send == 0 else Partition(out[|back|..], e'.diag, e.sizeM - e'.diag, e.nw)
    else
      e' == e.(done := done) && out == back && !eos
  }

  function Min(a: nat, b: nat): nat {
    if a < b then a else b
  }

  /** Where part i begins. */
  function PartFrom(i: nat, size: nat, remainder: nat): nat {
    i * size + Min(i, remainder)
  }

  lemma PartTo(i: nat, size: nat, remainder: nat)
    ensures PartFrom(i, size, remainder) + size + (if i < remainder then 1 else 0) == PartFrom(i + 1, size, remainder)
  {
    assert (i + 1) * size == i * size + size;
  }

  lemma LastPart(m: nat, nw: nat)
    requires nw > 0
    ensures PartFrom(nw, m / nw, m % nw) == m
    ensures m / nw == 0 ==> PartFrom(m % nw, 0, m % nw) == m
  {
    assert m == nw * (m / nw) + m % nw;
  }

  /** The first `count` parts of a diagonal that is cut into nw parts. */
  function Parts(diag: nat, size: nat, remainder: nat, count: nat): (ps: seq<Task>)
    ensures |ps| == count
    ensures forall x :: 0 <= x < count ==> ps[x] == Part(diag, size, remainder, x)
  {
    seq(count, x requires 0 <= x < count => Part(diag, size, remainder, x))
  }

  function Part(diag: nat, size: nat, remainder: nat, x: nat): Task {
    Task(diag, PartFrom(x, size, remainder), PartFrom(x + 1, size, remainder), false)
  }

  lemma PartSize(diag: nat, size: nat, remainder: nat, x: nat)
    ensures var p := Part(diag, size, remainder, x); p.to - p.from == size + if x < remainder then 1 else 0
  {
    PartTo(x, size, remainder);
  }

  lemma PartsGrow(i: nat, j: nat, size: nat, remainder: nat)
    requires i <= j
    ensures PartFrom(i, size, remainder) <= PartFrom(j, size, remainder)
  {
    Times(i, j, size);
  }

  lemma PartsArePartition(diag: nat, m: nat, nw: nat, count: nat)
    requires nw > 0 && m > 0 && count == if m / nw == 0 then m % nw else nw
    ensures Partition(Parts(diag, m / nw, m % nw, count), diag, m, nw)
  {
    hide *;
    var size, remainder := m / nw, m % nw;
    RemainderBound(m, nw);
    LastPart(m, nw);
    NoWholePart(m, nw);
    var ps := Parts(diag, size, remainder, count);
    FirstPart(size, remainder);
    forall x: nat | x < count
      ensures ps[x] == Part(diag, size, remainder, x) && Fair(ps[x], diag, m, size)
    {
      FairPart(diag, size, remainder, x, m, count);
    }
    IsPartition(ps, diag, m, nw, size, remainder);
  }

  lemma NoWholePart(m: nat, nw: nat)
    requires nw > 0
    ensures m / nw == 0 ==> m % nw == m
  {
    assert m == nw * (m / nw) + m % nw;
    if m / nw == 0 { assert nw * 0 == 0; }
  }

  ghost predicate Fair(p: Task, diag: nat, m: nat, size: nat) {
    p.diagonal == diag && p.from < p.to <= m && !p.completed && size <= p.to - p.from <= size + 1
  }

  lemma FairPart(diag: nat, size: nat, remainder: nat, x: nat, m: nat, count: nat)
    requires x < count && PartFrom(count, size, remainder) <= m && (size == 0 ==> count <= remainder)
    ensures Fair(Part(diag, size, remainder, x), diag, m, size)
  {
    PartSize(diag, size, remainder, x);
    PartsGrow(x + 1, count, size, remainder);
    hide PartFrom;
  }

  lemma IsPartition(ps: seq<Task>, diag: nat, m: nat, nw: nat, size: nat, remainder: nat)
    requires 0 < |ps| <= nw && PartFrom(0, size, remainder) == 0 && PartFrom(|ps|, size, remainder) == m
    requires forall x: nat :: x < |ps| ==> ps[x] == Part(diag, size, remainder, x) && Fair(ps[x], diag, m, size)
    ensures Partition(ps, diag, m, nw)
  {
    hide PartFrom;
    forall x: nat, y: nat | y == x + 1 < |ps| ensures ps[x].to == ps[y].from {
      assert ps[x] == Part(diag, size, remainder, x) && ps[y] == Part(diag, size, remainder, y);
    }
    assert ps[0] == Part(diag, size, remainder, 0) && ps[|ps| - 1] == Part(diag, size, remainder, |ps| - 1);
  }

  lemma FirstPart(size: nat, remainder: nat)
    ensures PartFrom(0, size, remainder) == 0
  {
  }

  class Emitter {
    var sizeM: nat
    var nw: nat
    var send: nat
    var done: nat
    var diag: nat

    ghost function State(): EmitterState
      reads this
    {
      EmitterState(sizeM, nw, send, done, diag)
    }

    constructor (sizeMatrix: nat, workers: nat)
      ensures State() == EmitterState(sizeMatrix, workers, 0, 0, 0)
    {
      sizeM, nw, send, done, diag := sizeMatrix, workers, 0, 0, 0;
    }

    /** Emitter::svc. Task number x of `out` behind a re-sent one goes to worker x. */
    method Call(task: Option<Task>) returns (out: seq<Task>, eos: bool)
      requires nw > 0
      modifies this
      ensures Svc(old(State()), task, State(), out, eos)
    {
      hide Partition;
      out, eos := [], false;
      if task.Some? {
        if task.value.completed {
          done := done + 1;
        } else {
          out := [task.value];
        }
      }
      if send == done {
        send := 0;
        done := 0;
        diag := diag + 1;
        if diag < sizeM {
          var ps := Schedule(diag, sizeM - diag, nw);
          send := |ps|;
          Behind(out, ps);
          out := out + ps;
        } else {
          eos := true;
        }
      }
    }

    /** The loop over the workers. */
    static method Schedule(diag: nat, diagSize: nat, nw: nat) returns (ps: seq<Task>)
      requires nw > 0 && diagSize > 0
      ensures Partition(ps, diag, diagSize, nw)
    {
      hide *;
      var taskSize, remainder := diagSize / nw, diagSize % nw;
      ps := [];
      ghost var count := if taskSize == 0 then remainder else nw;
      RemainderBound(diagSize, nw);
      for i := 0 to nw
        invariant ps == Parts(diag, taskSize, remainder, i) && i <= count
      {
        var from := PartFromIs(i, taskSize, remainder);
        var to := from + taskSize + if i < remainder then 1 else 0;
        PartTo(i, taskSize, remainder);
        if from == to {
          assert i == count;
          break;
        }
        PartIs(diag, taskSize, remainder, i);
        assert Parts(diag, taskSize, remainder, i + 1) == ps + [Task(diag, from, to, false)];
        ps := ps + [Task(diag, from, to, false)];
      }
      assert ps == Parts(diag, taskSize, remainder, count);
      PartsArePartition(diag, diagSize, nw, count);
    }

    static method PartFromIs(i: nat, taskSize: nat, remainder: nat) returns (from: nat)
      ensures from == PartFrom(i, taskSize, remainder)
    {
      from := i * taskSize + Min(i, remainder);
    }
  }

  lemma PartIs(diag: nat, size: nat, remainder: nat, x: nat)
    ensures Part(diag, size, remainder, x)
            == Task(diag, PartFrom(x, size, remainder), PartFrom(x + 1, size, remainder), false)
  {
  }

  lemma RemainderBound(m: nat, nw: nat)
    requires nw > 0
    ensures 0 <= m % nw < nw && 0 <= m / nw
  {
  }

  lemma Behind(back: seq<Task>, ps: seq<Task>)
    ensures (back + ps)[..|back|] == back && (back + ps)[|back|..] == ps
  {
  }

  /** Worker::svc, undisturbed: it fills in the cells of its part. */
  method WorkerCall(f: real -> real, M: array<real>, n: nat, task: Task, ghost done: set<nat>)
    returns (task': Task, ghost done': set<nat>)
    requires n > 0 && M.Length == n * n && 1 <= task.diagonal && task.from <= task.to && task.diagonal + task.to <= n
    requires Front(f, M[..], n, task.diagonal, done)
    modifies M
    ensures task' == task.(completed := true) && Front(f, M[..], n, task.diagonal, done')
    ensures forall j: nat :: j in done' <==> j in done || task.from <= j < task.to
  {
    var i := task.diagonal;
    done' := done;
    for j := task.from to task.to
      invariant Front(f, M[..], n, i, done')
      invariant forall x: nat :: x in done' <==> x in done || task.from <= x < j
    {
      hide *;
      ghost var before := M[..];
      var dp := ComputeCell(f, M, n, i, j);
      CellIsW(f, before, n, i, done', i, j);
      FrontStep(f, before, n, i, done', j, dp);
      PosIs(n, i, j);
      M[j * (n + 1) + i] := dp;
      assert M[..] == before[Pos(n, i, j) := dp];
      done' := done' + {j};
    }
    task' := task.(completed := true);
  }

  lemma PosIs(n: nat, i: nat, j: nat)
    ensures Pos(n, i, j) == j * (n + 1) + i
  {
  }

  // ----- all interleavings

  /** A task in a worker: the cells from task.from up to before `next` are written. */
  datatype Running = Running(task: Task, next: nat)

  /** `written` is history: the cells of the current diagonal that have been written. */
  datatype State = State(emitter: EmitterState, running: seq<Running>, M: seq<real>, eos: bool, written: set<nat>)

  function Started(ps: seq<Task>): (rs: seq<Running>)
    ensures |rs| == |ps|
    ensures forall x :: 0 <= x < |ps| ==> rs[x] == Running(ps[x], ps[x].from)
  {
    seq(|ps|, x requires 0 <= x < |ps| => Running(ps[x], ps[x].from))
  }

  function Without(rs: seq<Running>, x: nat): (r: seq<Running>)
    requires x < |rs|
    ensures |r| == |rs| - 1
  {
    rs[..x] + rs[x + 1..]
  }

  /** The main diagonal is there and the emitter gets its first call. */
  ghost predicate Init(f: real -> real, n: nat, nw: nat, s: State) {
    && nw > 0 && Filled(f, s.M, n, 1) && s.written == {}
    && exists out :: Svc(EmitterState(n, nw, 0, 0, 0), None, s.emitter, out, s.eos) && s.running == Started(out)
  }

  /** Worker x computes and writes its next cell. */
  ghost predicate WriteCell(f: real -> real, n: nat, s: State, s': State, x: nat) {
    && x < |s.running| && |s.M| == n * n
    && var r := s.running[x];
    && r.next < r.task.to && r.task.diagonal + r.next < n && Pos(n, r.task.diagonal, r.next) < n * n
    && s' == s.(running := s.running[x := r.(next := r.next + 1)],
                M := s.M[Pos(n, r.task.diagonal, r.next) := f(Dot(s.M, n, r.task.diagonal, r.next, r.task.diagonal))],
                written := s.written + {r.next})
  }

  /** The task of worker x is complete and reaches the emitter, which sends `out`. */
  ghost predicate Delivery(s: State, s': State, x: nat, out: seq<Task>) {
    && x < |s.running| && s.running[x].next == s.running[x].task.to
    && Svc(s.emitter, Some(s.running[x].task.(completed := true)), s'.emitter, out, s'.eos)
    && s'.running == Without(s.running, x) + Started(out)
    && s'.M == s.M && s'.written == if s'.emitter.diag == s.emitter.diag then s.written else {}
  }

  ghost predicate Deliver(s: State, s': State, x: nat) {
    exists out :: Delivery(s, s', x, out)
  }

  ghost predicate Step(f: real -> real, n: nat, s: State, s': State) {
    exists x: nat :: WriteCell(f, n, s, s', x) || Deliver(s, s', x)
  }

  /** The parts still in workers lie on the current diagonal and do not overlap. */
  ghost predicate Apart(rs: seq<Running>, diag: nat, m: nat) {
    && (forall x :: 0 <= x < |rs| ==>
          && rs[x].task.diagonal == diag && !rs[x].task.completed
          && rs[x].task.from <= rs[x].next <= rs[x].task.to <= m && rs[x].task.from < rs[x].task.to)
    && (forall x, y :: 0 <= x < y < |rs| ==> rs[x].task.to <= rs[y].task.from || rs[y].task.to <= rs[x].task.from)
  }

  /** Cell j is still to be written. */
  ghost predicate Waiting(rs: seq<Running>, j: nat) {
    exists x :: 0 <= x < |rs| && rs[x].next <= j < rs[x].task.to
  }

  ghost predicate Inv(f: real -> real, n: nat, s: State) {
    var e := s.emitter;
    && e.sizeM == n && e.nw > 0 && e.diag >= 1 && Front(f, s.M, n, e.diag, s.written)
    && s.eos == (e.diag >= n)
    && |s.running| == e.send - e.done
    && (s.eos ==> s.running == [] && s.written == {})
    && (!s.eos ==> s.running != [] && Apart(s.running, e.diag, n - e.diag))
    && (!s.eos ==> forall j: nat :: j < n - e.diag ==> (j in s.written <==> !Waiting(s.running, j)))
  }

  lemma {:induction false} Ascending(ps: seq<Task>, diag: nat, m: nat, nw: nat, x: nat, y: nat)
    requires Partition(ps, diag, m, nw) && x < y < |ps|
    ensures ps[x].to <= ps[y].from
    decreases y
  {
    var z := y - 1;
    assert ps[z].to == ps[y].from;
    if x < z { Ascending(ps, diag, m, nw, x, z); }
  }

  lemma {:induction false} Covers(ps: seq<Task>, diag: nat, m: nat, nw: nat, j: nat, k: nat) returns (x: nat)
    requires Partition(ps, diag, m, nw) && k < |ps| && j < ps[k].to
    ensures x < |ps| && ps[x].from <= j < ps[x].to
    decreases k
  {
    if ps[k].from <= j {
      x := k;
    } else {
      var z: nat := k - 1;
      assert ps[z].to == ps[k].from;
      x := Covers(ps, diag, m, nw, j, z);
    }
  }

  /** A new diagonal: its parts do not overlap and leave no cell out. */
  lemma PartsCover(ps: seq<Task>, diag: nat, m: nat, nw: nat)
    requires Partition(ps, diag, m, nw)
    ensures Apart(Started(ps), diag, m) && forall j: nat :: j < m ==> Waiting(Started(ps), j)
  {
    var rs := Started(ps);
    forall x, y | 0 <= x < y < |ps| ensures rs[x].task.to <= rs[y].task.from {
      Ascending(ps, diag, m, nw, x, y);
    }
    forall j: nat | j < m ensures Waiting(rs, j) {
      var x := Covers(ps, diag, m, nw, j, |ps| - 1);
      assert rs[x].next <= j < rs[x].task.to;
    }
  }

  /** The emitter goes on to a new diagonal when everything before it is there. */
  lemma NextDiagonal(f: real -> real, n: nat, e: EmitterState, task: Option<Task>, s: State, out: seq<Task>)
    requires e.sizeM == n && e.nw > 0 && (task.Some? ==> task.value.completed) && Filled(f, s.M, n, e.diag + 1)
             && s.written == {}
    requires Svc(e, task, s.emitter, out, s.eos) && e.send == (if task.Some? then e.done + 1 else e.done)
             && s.running == Started(out)
    ensures Inv(f, n, s)
  {
    if !s.eos {
      assert out[0..] == out;
      PartsCover(out, s.emitter.diag, n - s.emitter.diag, e.nw);
    }
  }

  lemma InitHasInv(f: real -> real, n: nat, nw: nat, s: State)
    requires Init(f, n, nw, s)
    ensures Inv(f, n, s)
  {
    var e := EmitterState(n, nw, 0, 0, 0);
    var out :| Svc(e, None, s.emitter, out, s.eos) && s.running == Started(out);
    NextDiagonal(f, n, e, None, s, out);
  }

  lemma WaitingAfter(rs: seq<Running>, diag: nat, m: nat, x: nat, j: nat)
    requires Apart(rs, diag, m) && x < |rs| && rs[x].next < rs[x].task.to
    ensures var r := rs[x]; Waiting(rs[x := r.(next := r.next + 1)], j) <==> Waiting(rs, j) && j != r.next
  {
    var r := rs[x];
    var rs' := rs[x := r.(next := r.next + 1)];
    if Waiting(rs', j) {
      var y :| 0 <= y < |rs'| && rs'[y].next <= j < rs'[y].task.to;
      assert rs[y].next <= j < rs[y].task.to;
    }
    if Waiting(rs, j) && j != r.next {
      var y :| 0 <= y < |rs| && rs[y].next <= j < rs[y].task.to;
      assert rs'[y].next <= j < rs'[y].task.to;
    }
  }

  lemma WriteCellKeepsInv(f: real -> real, n: nat, s: State, s': State, x: nat)
    requires Inv(f, n, s) && WriteCell(f, n, s, s', x)
    ensures Inv(f, n, s')
  {
    var r, e := s.running[x], s.emitter;
    CellIsW(f, s.M, n, e.diag, s.written, e.diag, r.next);
    FrontStep(f, s.M, n, e.diag, s.written, r.next, W(f, n, e.diag, r.next));
    forall j: nat | j < n - e.diag ensures j in s'.written <==> !Waiting(s'.running, j) {
      WaitingAfter(s.running, e.diag, n - e.diag, x, j);
    }
    hide Front, W, Dot, Waiting;
  }

  lemma WaitingWithout(rs: seq<Running>, x: nat, j: nat)
    requires x < |rs| && rs[x].next == rs[x].task.to
    ensures Waiting(Without(rs, x), j) <==> Waiting(rs, j)
  {
    var rs' := Without(rs, x);
    if Waiting(rs', j) {
      var y :| 0 <= y < |rs'| && rs'[y].next <= j < rs'[y].task.to;
      assert rs'[y] == rs[if y < x then y else y + 1];
    }
    if Waiting(rs, j) {
      var y :| 0 <= y < |rs| && rs[y].next <= j < rs[y].task.to;
      assert rs'[if y < x then y else y - 1] == rs[y];
    }
  }

  lemma ApartWithout(rs: seq<Running>, diag: nat, m: nat, x: nat)
    requires Apart(rs, diag, m) && x < |rs|
    ensures Apart(Without(rs, x), diag, m)
  {
    var rs' := Without(rs, x);
    assert forall y :: 0 <= y < |rs'| ==> rs'[y] == rs[if y < x then y else y + 1];
  }

  lemma DeliverKeepsInv(f: real -> real, n: nat, s: State, s': State, x: nat)
    requires Inv(f, n, s) && Deliver(s, s', x)
    ensures Inv(f, n, s')
  {
    var out := Delivered(s, s', x);
    RunningCount(f, n, s, x);
    hide *;
    if s.emitter.send == s.emitter.done + 1 {
      DeliverLast(f, n, s, s', x, out);
    } else {
      DeliverOne(f, n, s, s', x, out);
    }
  }

  lemma DeliverLast(f: real -> real, n: nat, s: State, s': State, x: nat, out: seq<Task>)
    requires Inv(f, n, s) && Delivery(s, s', x, out) && s.emitter.send == s.emitter.done + 1 && |s.running| == 1
    ensures Inv(f, n, s')
  {
    LastIsBack(f, n, s, x);
    LastDelivered(s, s', x, out);
    hide *;
    NextDiagonal(f, n, s.emitter, Some(s.running[x].task.(completed := true)), s', out);
  }

  lemma DeliverOne(f: real -> real, n: nat, s: State, s': State, x: nat, out: seq<Task>)
    requires Inv(f, n, s) && Delivery(s, s', x, out) && s.emitter.send != s.emitter.done + 1 && !s.eos
    ensures Inv(f, n, s')
  {
    hide *;
    OneDelivered(s, s', x, out);
    OneIsBack(f, n, s, x);
  }

  lemma RunningCount(f: real -> real, n: nat, s: State, x: nat)
    requires Inv(f, n, s) && x < |s.running|
    ensures |s.running| == s.emitter.send - s.emitter.done && !s.eos
  {
  }

  lemma Delivered(s: State, s': State, x: nat) returns (out: seq<Task>)
    requires Deliver(s, s', x)
    ensures Delivery(s, s', x, out)
  {
    hide Svc;
    out :| Delivery(s, s', x, out);
  }

  lemma LastDelivered(s: State, s': State, x: nat, out: seq<Task>)
    requires Delivery(s, s', x, out) && s.emitter.send == s.emitter.done + 1 && Without(s.running, x) == []
    ensures Svc(s.emitter, Some(s.running[x].task.(completed := true)), s'.emitter, out, s'.eos)
    ensures s'.running == Started(out) && s'.written == {} && s'.M == s.M
  {
    hide Partition;
  }

  lemma OneDelivered(s: State, s': State, x: nat, out: seq<Task>)
    requires Delivery(s, s', x, out) && s.emitter.send != s.emitter.done + 1 && !s.eos
    ensures x < |s.running| && s.running[x].next == s.running[x].task.to
    ensures s' == s.(emitter := s.emitter.(done := s.emitter.done + 1), running := Without(s.running, x))
  {
    hide Partition;
    assert s'.running == Without(s.running, x);
  }

  /** The last task of a diagonal comes back: the diagonal is complete. */
  lemma LastIsBack(f: real -> real, n: nat, s: State, x: nat)
    requires Inv(f, n, s) && x < |s.running| == 1 && s.running[x].next == s.running[x].task.to
    ensures Without(s.running, x) == [] && Filled(f, s.M, n, s.emitter.diag + 1)
    ensures s.emitter.sizeM == n && s.emitter.nw > 0
  {
    forall j: nat | s.emitter.diag + j < n ensures j in s.written {
      WaitingWithout(s.running, x, j);
      assert !Waiting(Without(s.running, x), j);
    }
    FrontNext(f, s.M, n, s.emitter.diag, s.written);
  }

  /** A task comes back while others are out. */
  lemma OneIsBack(f: real -> real, n: nat, s: State, x: nat)
    requires Inv(f, n, s) && x < |s.running| && s.emitter.send != s.emitter.done + 1
             && s.running[x].next == s.running[x].task.to
    ensures Inv(f, n, s.(emitter := s.emitter.(done := s.emitter.done + 1), running := Without(s.running, x)))
  {
    var e := s.emitter;
    forall j: nat | j < n - e.diag ensures Waiting(Without(s.running, x), j) <==> Waiting(s.running, j) {
      WaitingWithout(s.running, x, j);
    }
    ApartWithout(s.running, e.diag, n - e.diag, x);
    hide Front, Waiting, Apart;
  }

  /** Whatever the order of the workers' cells and of the tasks coming back, a step keeps the invariant. */
  lemma StepKeepsInv(f: real -> real, n: nat, s: State, s': State)
    requires Inv(f, n, s) && Step(f, n, s, s')
    ensures Inv(f, n, s')
  {
    var x: nat :| WriteCell(f, n, s, s', x) || Deliver(s, s', x);
    if WriteCell(f, n, s, s', x) { WriteCellKeepsInv(f, n, s, s', x); } else { DeliverKeepsInv(f, n, s, s', x); }
  }

  /** The states of a run. */
  ghost predicate Run(f: real -> real, n: nat, nw: nat, ss: seq<State>) {
    && ss != [] && Init(f, n, nw, ss[0])
    && forall k, l :: 0 <= k && l == k + 1 < |ss| ==> Step(f, n, ss[k], ss[l])
  }

  lemma {:induction false} RunKeepsInv(f: real -> real, n: nat, nw: nat, ss: seq<State>, k: nat)
    requires Run(f, n, nw, ss) && k < |ss|
    ensures Inv(f, n, ss[k])
  {
    hide Inv, Step, Init;
    if k == 0 {
      InitHasInv(f, n, nw, ss[0]);
    } else {
      var j := k - 1;
      RunKeepsInv(f, n, nw, ss, j);
      StepKeepsInv(f, n, ss[j], ss[k]);
    }
  }

  /** At the end of the stream, in every run, the matrix is the sequential one. */
  lemma EndIsSequential(f: real -> real, n: nat, nw: nat, ss: seq<State>, k: nat, M: seq<real>)
    requires Run(f, n, nw, ss) && k < |ss| && ss[k].eos && Filled(f, M, n, n)
    ensures ss[k].M == M
  {
    RunKeepsInv(f, n, nw, ss, k);
    FilledBeyond(f, ss[k].M, n, ss[k].emitter.diag);
    FrontIsUnique(f, ss[k].M, M, n, n, {});
  }

  /** Workers never touch each other's cells: what one may still write, no other one reads or writes. */
  lemma NoRaces(f: real -> real, n: nat, s: State, x: nat, y: nat, jx: nat, jy: nat, k: nat)
    requires Inv(f, n, s) && x < |s.running| && y < |s.running| && x != y
    requires s.running[x].task.from <= jx < s.running[x].task.to && s.running[y].task.from <= jy < s.running[y].task.to
    requires 1 <= k <= s.emitter.diag
    ensures Pos(n, s.emitter.diag, jx) != Pos(n, s.emitter.diag, jy)
    ensures Pos(n, s.emitter.diag - k, jx) != Pos(n, s.emitter.diag, jy)
    ensures Pos(n, s.emitter.diag - k, jx + k) != Pos(n, s.emitter.diag, jy)
  {
    var d := s.emitter.diag;
    assert jx != jy by {
      var p, q := s.running[x].task, s.running[y].task;
      if x < y {
        assert p.to <= q.from || q.to <= p.from;
      } else {
        assert q.to <= p.from || p.to <= q.from;
      }
    }
    hide *;
    if Pos(n, d, jx) == Pos(n, d, jy) { PosUnique(n, d, jx, d, jy); }
    if Pos(n, d - k, jx) == Pos(n, d, jy) { PosUnique(n, d - k, jx, d, jy); }
    if Pos(n, d - k, jx + k) == Pos(n, d, jy) { PosUnique(n, d - k, jx + k, d, jy); }
  }

  // ----- every run ends

  /** The cells to be written and tasks to come back on the current diagonal. */
  function Work(rs: seq<Running>): nat {
    if rs == [] then 0
    else Work(rs[1..]) + 1 + if rs[0].next < rs[0].task.to then rs[0].task.to - rs[0].next else 0
  }

  lemma {:induction false} WorkAppend(rs: seq<Running>, qs: seq<Running>)
    ensures Work(rs + qs) == Work(rs) + Work(qs)
  {
    if rs == [] {
      assert rs + qs == qs;
    } else {
      assert (rs + qs)[1..] == rs[1..] + qs;
      WorkAppend(rs[1..], qs);
    }
  }

  lemma WorkAt(rs: seq<Running>, x: nat)
    requires x < |rs|
    ensures Work(rs) == Work(rs[..x]) + Work([rs[x]]) + Work(rs[x + 1..])
  {
    hide *;
    assert rs == rs[..x] + ([rs[x]] + rs[x + 1..]);
    WorkAppend(rs[..x], [rs[x]] + rs[x + 1..]);
    WorkAppend([rs[x]], rs[x + 1..]);
  }

  /** Every step comes closer to the end: a later diagonal, or less work on this one. */
  lemma StepsComeToAnEnd(f: real -> real, n: nat, s: State, s': State)
    requires Inv(f, n, s) && Step(f, n, s, s')
    ensures !s.eos
    ensures s'.emitter.diag == s.emitter.diag + 1 <= n
            || (s'.emitter.diag == s.emitter.diag && Work(s'.running) < Work(s.running))
  {
    hide Inv, WriteCell, Deliver, Work;
    var x: nat :| WriteCell(f, n, s, s', x) || Deliver(s, s', x);
    hide *;
    StepWorker(f, n, s, s', x);
    RunningCount(f, n, s, x);
    DiagonalsLeft(f, n, s);
    if WriteCell(f, n, s, s', x) {
      LessToWrite(f, n, s, s', x);
    } else {
      LessToDeliver(s, s', x);
    }
  }

  lemma StepWorker(f: real -> real, n: nat, s: State, s': State, x: nat)
    requires WriteCell(f, n, s, s', x) || Deliver(s, s', x)
    ensures x < |s.running|
  {
    hide Svc;
  }

  lemma LessToWrite(f: real -> real, n: nat, s: State, s': State, x: nat)
    requires WriteCell(f, n, s, s', x)
    ensures s'.emitter == s.emitter && Work(s'.running) < Work(s.running)
  {
    var r := s.running[x];
    LessWork(s.running, x, r.(next := r.next + 1));
    hide Work, Dot;
  }

  /** The last part of a diagonal leads to the next one; any other is one part less. */
  lemma LessToDeliver(s: State, s': State, x: nat)
    requires Deliver(s, s', x) && x < |s.running| && |s.running| == s.emitter.send - s.emitter.done && !s.eos
    ensures s'.emitter.diag == s.emitter.diag + 1
            || (s'.emitter.diag == s.emitter.diag && Work(s'.running) < Work(s.running))
  {
    hide Work, Partition, Without;
    var out := Delivered(s, s', x);
    WorkWithout(s.running, x);
    if s.emitter.send != s.emitter.done + 1 { OneDelivered(s, s', x, out); }
  }

  lemma DiagonalsLeft(f: real -> real, n: nat, s: State)
    requires Inv(f, n, s) && !s.eos
    ensures s.emitter.diag < n
  {
  }

  lemma WorkOf(r: Running)
    ensures Work([r]) == 1 + if r.next < r.task.to then r.task.to - r.next else 0
  {
    assert [r][1..] == [];
  }

  lemma LessWork(rs: seq<Running>, x: nat, r: Running)
    requires x < |rs| && r == rs[x].(next := rs[x].next + 1) && rs[x].next < rs[x].task.to
    ensures Work(rs[x := r]) < Work(rs)
  {
    var rs' := rs[x := r];
    WorkAt(rs, x);
    WorkAt(rs', x);
    WorkOf(r);
    WorkOf(rs[x]);
    assert rs'[..x] == rs[..x] && rs'[x + 1..] == rs[x + 1..];
  }

  lemma WorkWithout(rs: seq<Running>, x: nat)
    requires x < |rs|
    ensures Work(Without(rs, x)) < Work(rs)
  {
    WorkAt(rs, x);
    WorkOf(rs[x]);
    WorkAppend(rs[..x], rs[x + 1..]);
  }

  /** Before the end of the stream some step can always be taken. */
  lemma NoDeadlock(f: real -> real, n: nat, s: State)
    requires Inv(f, n, s) && !s.eos
    ensures exists s' :: Step(f, n, s, s')
  {
    hide Front, W, Dot, Partition, Without, Waiting, WriteCell, Deliver, Step;
    if s.running[0].next < s.running[0].task.to {
      var s' := Written(f, n, s);
      TakesAStep(f, n, s, s');
    } else {
      var s' := Returned(s);
      TakesAStep(f, n, s, s');
    }
  }

  lemma TakesAStep(f: real -> real, n: nat, s: State, s': State)
    requires WriteCell(f, n, s, s', 0) || Deliver(s, s', 0)
    ensures Step(f, n, s, s')
  {
    hide WriteCell, Deliver;
  }

  lemma Written(f: real -> real, n: nat, s: State) returns (s': State)
    requires Inv(f, n, s) && !s.eos && s.running[0].next < s.running[0].task.to
    ensures WriteCell(f, n, s, s', 0)
  {
    var r := s.running[0];
    hide Front, W, Dot;
    PosBound(n, r.task.diagonal, r.next);
    s' := s.(running := s.running[0 := r.(next := r.next + 1)],
             M := s.M[Pos(n, r.task.diagonal, r.next) := f(Dot(s.M, n, r.task.diagonal, r.next, r.task.diagonal))],
             written := s.written + {r.next});
  }

  lemma Returned(s: State) returns (s': State)
    requires s.running != [] && s.running[0].next == s.running[0].task.to && s.emitter.nw > 0
    ensures Deliver(s, s', 0)
  {
    hide *;
    var e', out, eos := Reply(s.emitter);
    assert Svc(s.emitter, Some(s.running[0].task.(completed := true)), e', out, eos);
    s' := State(e', Without(s.running, 0) + Started(out), s.M, eos,
                if e'.diag == s.emitter.diag then s.written else {});
    IsDelivery(s, s', out);
  }

  lemma IsDelivery(s: State, s': State, out: seq<Task>)
    requires s.running != [] && s.running[0].next == s.running[0].task.to
    requires Svc(s.emitter, Some(s.running[0].task.(completed := true)), s'.emitter, out, s'.eos)
    requires s'.running == Without(s.running, 0) + Started(out)
    requires s'.M == s.M && s'.written == if s'.emitter.diag == s.emitter.diag then s.written else {}
    ensures Deliver(s, s', 0)
  {
    hide Svc, Without;
    assert Delivery(s, s', 0, out);
  }

  lemma Reply(e: EmitterState) returns (e': EmitterState, out: seq<Task>, eos: bool)
    requires e.nw > 0
    ensures forall t: Task :: t.completed ==> Svc(e, Some(t), e', out, eos)
  {
    if e.send != e.done + 1 {
      e', out, eos := e.(done := e.done + 1), [], false;
    } else if e.diag + 1 >= e.sizeM {
      e', out, eos := EmitterState(e.sizeM, e.nw, 0, 0, e.diag + 1), [], true;
    } else {
      var m := e.sizeM - (e.diag + 1);
      RemainderBound(m, e.nw);
      out := Parts(e.diag + 1, m / e.nw, m % e.nw, if m / e.nw == 0 then m % e.nw else e.nw);
      PartsArePartition(e.diag + 1, m, e.nw, |out|);
      e', eos := EmitterState(e.sizeM, e.nw, |out|, 0, e.diag + 1), false;
      assert out[0..] == out;
      hide Partition;
    }
  }

  // ----- every run is finite

  lemma {:induction false} WorkStarted(ps: seq<Task>)
    requires ps != [] && (forall x :: 0 <= x < |ps| ==> ps[x].from < ps[x].to)
    requires forall x: nat, y: nat :: y == x + 1 < |ps| ==> ps[x].to == ps[y].from
    ensures ps[0].from <= ps[|ps| - 1].to && Work(Started(ps)) <= 2 * (ps[|ps| - 1].to - ps[0].from)
  {
    assert Started(ps)[1..] == Started(ps[1..]);
    if |ps| > 1 {
      forall x: nat, y: nat | y == x + 1 < |ps[1..]| ensures ps[1..][x].to == ps[1..][y].from {
        assert ps[1..][x] == ps[x + 1] && ps[1..][y] == ps[y + 1];
      }
      WorkStarted(ps[1..]);
      var z := 0;
      assert ps[z].to == ps[z + 1].from;
    }
  }

  /** What is left to do: diagonals, each with room for its cells and tasks, and the work on the current one. */
  function Rank(n: nat, s: State): int {
    (n - s.emitter.diag) * (2 * n + 1) + Work(s.running)
  }

  lemma RankDrops(n: nat, d: nat, w: nat, d': nat, w': nat)
    requires (d' == d + 1 <= n && w' <= 2 * n) || (d' == d <= n && w' < w)
    ensures 0 <= (n - d') * (2 * n + 1) + w' < (n - d) * (2 * n + 1) + w
  {
    Times(0, n - d', 2 * n + 1);
    if d' == d + 1 { assert (n - d) * (2 * n + 1) == (n - d') * (2 * n + 1) + (2 * n + 1); }
  }

  /** On a new diagonal there are at most twice as many steps as cells. */
  lemma NewWork(f: real -> real, n: nat, s: State, s': State)
    requires Inv(f, n, s) && Step(f, n, s, s') && s'.emitter.diag == s.emitter.diag + 1 <= n
    ensures Work(s'.running) <= 2 * n
  {
    var x: nat :| WriteCell(f, n, s, s', x) || Deliver(s, s', x);
    var out := Delivered(s, s', x);
    RunningCount(f, n, s, x);
    NewParts(s, s', x, out);
    StepKeepsInv(f, n, s, s');
    if s'.eos {
      assert s'.running == [];
    } else {
      assert s.emitter.sizeM == n by { hide Svc; }
      hide *;
      StartedPartition(out, s'.emitter.diag, n - s'.emitter.diag, s.emitter.nw);
    }
  }

  lemma NewParts(s: State, s': State, x: nat, out: seq<Task>)
    requires Delivery(s, s', x, out) && |s.running| == s.emitter.send - s.emitter.done
             && s'.emitter.diag == s.emitter.diag + 1
    ensures s'.running == Started(out)
    ensures !s'.eos ==> s.emitter.sizeM >= s'.emitter.diag
                        && Partition(out, s'.emitter.diag, s.emitter.sizeM - s'.emitter.diag, s.emitter.nw)
  {
    assert out[0..] == out;
    hide Partition;
  }

  lemma StartedPartition(ps: seq<Task>, diag: nat, m: nat, nw: nat)
    requires Partition(ps, diag, m, nw)
    ensures Work(Started(ps)) <= 2 * m
  {
    WorkStarted(ps);
  }

  lemma StepLowersRank(f: real -> real, n: nat, s: State, s': State)
    requires Inv(f, n, s) && Step(f, n, s, s')
    ensures 0 <= Rank(n, s') < Rank(n, s)
  {
    hide *;
    StepsComeToAnEnd(f, n, s, s');
    NotBeyond(f, n, s);
    if s'.emitter.diag == s.emitter.diag + 1 { NewWork(f, n, s, s'); }
    RankDrops(n, s.emitter.diag, Work(s.running), s'.emitter.diag, Work(s'.running));
    RankIs(n, s);
    RankIs(n, s');
  }

  lemma NotBeyond(f: real -> real, n: nat, s: State)
    requires Inv(f, n, s) && !s.eos
    ensures s.emitter.diag < n
  {
  }

  lemma RankIs(n: nat, s: State)
    ensures Rank(n, s) == (n - s.emitter.diag) * (2 * n + 1) + Work(s.running)
  {
  }

  lemma {:induction false} RanksFall(f: real -> real, n: nat, nw: nat, ss: seq<State>, k: nat)
    requires Run(f, n, nw, ss) && 0 < k < |ss|
    ensures 0 <= Rank(n, ss[k]) <= Rank(n, ss[0]) - k
    decreases k
  {
    hide Inv, Step, Init, Rank;
    var j := k - 1;
    RunKeepsInv(f, n, nw, ss, j);
    assert Step(f, n, ss[j], ss[k]);
    StepLowersRank(f, n, ss[j], ss[k]);
    if j > 0 { RanksFall(f, n, nw, ss, j); }
  }

  /** No step can be taken. */
  ghost predicate Stuck(f: real -> real, n: nat, s: State) {
    forall s' :: !Step(f, n, s, s')
  }

  /** Every run is finite, with a bound known from its first state, and when no step can be taken any more the stream
      has ended and the matrix is the sequential one. */
  lemma EveryRunEnds(f: real -> real, n: nat, nw: nat, ss: seq<State>, k: nat, M: seq<real>)
    requires Run(f, n, nw, ss) && k < |ss| && Filled(f, M, n, n)
    ensures k > 0 ==> k <= Rank(n, ss[0])
    ensures Stuck(f, n, ss[k]) ==> ss[k].eos && ss[k].M == M
  {
    if k > 0 { RanksFall(f, n, nw, ss, k); }
    RunKeepsInv(f, n, nw, ss, k);
    hide Inv, Step, Run, Rank, Filled;
    if ss[k].eos {
      EndIsSequential(f, n, nw, ss, k, M);
    } else {
      NoDeadlock(f, n, ss[k]);
    }
  }
}
