/** A thread pool that stops itself, and the tree traversal that runs on it. */
module ThreadPool {
  // The sections under the pool's lock are methods; a run interleaves them with the traversing threads. The queue holds
  // the nodes to traverse.

  import opened Wrappers

  datatype PoolState = PoolState(tasks: seq<nat>, stop: bool, active: nat)

  /** enqueue: None stands for the exception on a stopped pool. */
  function Enqueued(p: PoolState, node: nat): Option<PoolState> {
    if p.stop then None else Some(p.(tasks := p.tasks + [node]))
  }

  /** The end of the waiting section: None for a thread that exits, else the task that it takes. */
  function Taken(p: PoolState): Option<(PoolState, nat)>
    requires p.stop || p.tasks != []
  {
    if p.stop && p.tasks == [] then None
    else Some((p.(tasks := p.tasks[1..], active := p.active + 1), p.tasks[0]))
  }

  /** after_task_hook. */
  function TaskDone(p: PoolState): PoolState
    requires p.active > 0
  {
    PoolState(p.tasks, p.stop || (p.active == 1 && p.tasks == []), p.active - 1)
  }

  class Pool {
    var tasks: seq<nat>
    var stopPool: bool
    var activeThreads: nat
    const capacity: nat

    ghost function State(): PoolState
      reads this
    {
      PoolState(tasks, stopPool, activeThreads)
    }

    constructor (capacity: nat)
      ensures State() == PoolState([], false, 0) && this.capacity == capacity
    {
      tasks, stopPool, activeThreads := [], false, 0;
      this.capacity := capacity;
    }

    /** The locked part of enqueue. */
    method Enqueue(node: nat) returns (ok: bool)
      modifies this
      ensures ok == Enqueued(old(State()), node).Some?
      ensures State() == if ok then Enqueued(old(State()), node).value else old(State())
    {
      if stopPool { return false; }
      tasks := tasks + [node];
      ok := true;
    }

    /** The locked part of the wait loop, once its predicate holds. */
    method Take() returns (task: Option<nat>)
      requires stopPool || tasks != []
      modifies this
      ensures task == match Taken(old(State())) case None => None case Some(t) => Some(t.1)
      ensures State() == match Taken(old(State())) case None => old(State()) case Some(t) => t.0
    {
      if stopPool && tasks == [] { return None; }
      task := Some(tasks[0]);
      tasks := tasks[1..];
      activeThreads := activeThreads + 1;
    }

    /** The locked part after a task. */
    method AfterTask()
      requires activeThreads > 0
      modifies this
      ensures State() == TaskDone(old(State()))
    {
      activeThreads := activeThreads - 1;
      if activeThreads == 0 && tasks == [] {
        stopPool := true;
      }
    }
  }

  // ----- traversing threads

  /** What a thread has left to do: traverse a node; spawn the traversal of a node's left child and then traverse its
      right child; or, with the decision to enqueue made, do that. */
  datatype Frame = Call(node: nat) | Spawn(node: nat) | Enqueue(node: nat)

  datatype Worker = Idle | Running(stack: seq<Frame>) | Exited

  datatype Main = Spawning | Enqueueing | Inlining(stack: seq<Frame>) | Waiting | Returned

  datatype State = State(pool: PoolState, workers: seq<Worker>, main: Main, visited: seq<nat>, failed: bool)

  /** One step of a traversing thread: it visits a node, reads the number of active threads, or enqueues. If the pool
      refuses, that is noted. */
  function Traverse(n: nat, capacity: nat, s: State, stack: seq<Frame>): (r: (State, seq<Frame>))
    requires stack != []
    ensures r.0.failed <==> s.failed || (stack[0].Enqueue? && s.pool.stop)
  {
    var rest := stack[1..];
    match stack[0]
    case Call(x) => if x < n then (s.(visited := s.visited + [x]), [Spawn(x)] + rest) else (s, rest)
    case Spawn(x) =>
      if s.pool.active < capacity then (s, [Enqueue(x)] + rest) else (s, [Call(2 * x + 1), Call(2 * x + 2)] + rest)
    case Enqueue(x) =>
      match Enqueued(s.pool, 2 * x + 1)
      case None => (s.(failed := true), rest)
      case Some(p) => (s.(pool := p), [Call(2 * x + 2)] + rest)
  }

  function Start(capacity: nat): State {
    State(PoolState([], false, 0), seq(capacity, _ => Idle), Spawning, [], false)
  }

  ghost predicate WorkerStep(n: nat, capacity: nat, s: State, s': State, w: nat) {
    && w < |s.workers|
    && match s.workers[w]
       case Idle =>
         && (s.pool.stop || s.pool.tasks != [])
         && s' == (match Taken(s.pool)
                   case None => s.(workers := s.workers[w := Exited])
                   case Some(t) => s.(pool := t.0, workers := s.workers[w := Running([Call(t.1)])]))
       case Running(stack) =>
         if stack == [] then s.pool.active > 0 && s' == s.(pool := TaskDone(s.pool), workers := s.workers[w := Idle])
         else var (t, rest) := Traverse(n, capacity, s, stack); s' == t.(workers := s.workers[w := Running(rest)])
       case Exited => false
  }

  ghost predicate MainStep(n: nat, capacity: nat, s: State, s': State) {
    match s.main
    case Spawning => s' == s.(main := if s.pool.active < capacity then Enqueueing else Inlining([Call(0)]))
    case Enqueueing =>
      s' == (match Enqueued(s.pool, 0)
             case None => s.(failed := true, main := Returned)
             case Some(p) => s.(pool := p, main := Waiting))
    case Inlining(stack) =>
      if stack == [] then s' == s.(main := Waiting)
      else var (t, rest) := Traverse(n, capacity, s, stack); s' == t.(main := Inlining(rest))
    case Waiting => s.pool.stop && s' == s.(main := Returned)
    case Returned => false
  }

  ghost predicate Step(n: nat, capacity: nat, s: State, s': State) {
    MainStep(n, capacity, s, s') || exists w: nat :: WorkerStep(n, capacity, s, s', w)
  }

  // ----- who owes which visit

  function One(b: bool): nat {
    if b then 1 else 0
  }

  /** Node v lies in the subtree of x. */
  predicate InSub(x: nat, v: nat)
    decreases v
  {
    v == x || (v > x && InSub(x, (v - 1) / 2))
  }

  lemma {:induction false} SubBelow(x: nat, v: nat)
    requires InSub(x, v)
    ensures x <= v
  {
  }

  /** A subtree is its root and the two subtrees below, with nothing in common. */
  lemma {:induction false} Children(x: nat, v: nat)
    ensures One(InSub(x, v)) == One(v == x) + One(InSub(2 * x + 1, v)) + One(InSub(2 * x + 2, v))
    decreases v
  {
    if v > x {
      var p := (v - 1) / 2;
      Children(x, p);
      if InSub(2 * x + 1, p) { SubBelow(2 * x + 1, p); }
      if InSub(2 * x + 2, p) { SubBelow(2 * x + 2, p); }
      assert p == x <==> v == 2 * x + 1 || v == 2 * x + 2;
    }
  }

  function FrameOwes(f: Frame, v: nat): nat {
    if f.Call? then One(InSub(f.node, v)) else One(InSub(2 * f.node + 1, v)) + One(InSub(2 * f.node + 2, v))
  }

  function StackOwes(stack: seq<Frame>, v: nat): nat {
    if stack == [] then 0 else FrameOwes(stack[0], v) + StackOwes(stack[1..], v)
  }

  function QueueOwes(tasks: seq<nat>, v: nat): nat {
    if tasks == [] then 0 else One(InSub(tasks[0], v)) + QueueOwes(tasks[1..], v)
  }

  function WorkersOwe(ws: seq<Worker>, v: nat): nat {
    if ws == [] then 0 else (if ws[0].Running? then StackOwes(ws[0].stack, v) else 0) + WorkersOwe(ws[1..], v)
  }

  function MainOwes(m: Main, v: nat): nat {
    match m
    case Spawning => One(InSub(0, v))
    case Enqueueing => One(InSub(0, v))
    case Inlining(stack) => StackOwes(stack, v)
    case Waiting => 0
    case Returned => 0
  }

  /** How often v has been visited or is going to be. */
  function Account(s: State, v: nat): nat {
    multiset(s.visited)[v] + QueueOwes(s.pool.tasks, v) + WorkersOwe(s.workers, v) + MainOwes(s.main, v)
  }

  function ActiveWorkers(ws: seq<Worker>): nat {
    if ws == [] then 0 else One(ws[0].Running?) + ActiveWorkers(ws[1..])
  }

  ghost predicate Inv(n: nat, capacity: nat, s: State) {
    && |s.workers| == capacity >= 1
    && s.pool.active == ActiveWorkers(s.workers)
    && (s.pool.stop ==> s.pool.active == 0 && s.pool.tasks == [])
    && !s.failed && !s.main.Inlining?
    && (s.main.Spawning? || s.main.Enqueueing? ==> s.pool == PoolState([], false, 0))
    && (s.main.Waiting? && !s.pool.stop ==> s.pool.active > 0 || s.pool.tasks != [])
    && (s.main.Returned? ==> s.pool.stop)
    && (!s.pool.stop ==> forall w :: 0 <= w < |s.workers| ==> !s.workers[w].Exited?)
    && (forall v :: 0 <= v < n ==> Account(s, v) == 1)
    && (forall x :: x in s.visited ==> x < n)
  }

  lemma {:induction false} RootOwesAll(v: nat)
    ensures InSub(0, v)
  {
    if v > 0 { RootOwesAll((v - 1) / 2); }
  }

  lemma {:induction false} IdleOwesNothing(ws: seq<Worker>, v: nat)
    requires forall w :: 0 <= w < |ws| ==> ws[w] == Idle
    ensures WorkersOwe(ws, v) == 0 && ActiveWorkers(ws) == 0
  {
    if ws != [] { IdleOwesNothing(ws[1..], v); }
  }

  lemma StartHasInv(n: nat, capacity: nat)
    requires capacity >= 1
    ensures Inv(n, capacity, Start(capacity))
  {
    var s := Start(capacity);
    IdleOwesNothing(s.workers, 0);
    forall v: nat | v < n ensures Account(s, v) == 1 {
      IdleOwesNothing(s.workers, v);
      RootOwesAll(v);
    }
  }

  lemma {:induction false} WorkersUpdate(ws: seq<Worker>, w: nat, x: Worker, v: nat)
    requires w < |ws|
    ensures WorkersOwe(ws[w := x], v) + (if ws[w].Running? then StackOwes(ws[w].stack, v) else 0)
            == WorkersOwe(ws, v) + if x.Running? then StackOwes(x.stack, v) else 0
    ensures ActiveWorkers(ws[w := x]) + One(ws[w].Running?) == ActiveWorkers(ws) + One(x.Running?)
  {
    if w > 0 {
      assert ws[w := x][1..] == ws[1..][w - 1 := x];
      WorkersUpdate(ws[1..], w - 1, x, v);
    } else {
      assert ws[w := x][1..] == ws[1..];
    }
  }

  lemma {:induction false} QueueSnoc(tasks: seq<nat>, x: nat, v: nat)
    ensures QueueOwes(tasks + [x], v) == QueueOwes(tasks, v) + One(InSub(x, v))
  {
    if tasks == [] {
      assert [x][1..] == [] && [] + [x] == [x];
    } else {
      assert (tasks + [x])[1..] == tasks[1..] + [x];
      QueueSnoc(tasks[1..], x, v);
    }
  }

  /** Visits of v done, queued and in a stack. */
  function Held(visited: seq<nat>, tasks: seq<nat>, stack: seq<Frame>, v: nat): nat {
    multiset(visited)[v] + QueueOwes(tasks, v) + StackOwes(stack, v)
  }

  lemma HeldIs(visited: seq<nat>, tasks: seq<nat>, stack: seq<Frame>, v: nat)
    ensures Held(visited, tasks, stack, v) == multiset(visited)[v] + QueueOwes(tasks, v) + StackOwes(stack, v)
  {
  }

  /** A step of a traversing thread moves what it owes: into the visited nodes or the queue. */
  lemma TraverseAccount(n: nat, capacity: nat, s: State, stack: seq<Frame>, v: nat)
    requires stack != [] && !s.pool.stop && v < n
    ensures var (t, rest) := Traverse(n, capacity, s, stack);
            && t.failed == s.failed && t.main == s.main && t.workers == s.workers
            && Held(t.visited, t.pool.tasks, rest, v) == Held(s.visited, s.pool.tasks, stack, v)
  {
    match stack[0]
    case Call(x) => CallAccount(n, capacity, s, stack, v);
    case Spawn(x) => SpawnAccount(n, capacity, s, stack, v);
    case Enqueue(x) => EnqueueAccount(n, capacity, s, stack, v);
  }

  lemma CallAccount(n: nat, capacity: nat, s: State, stack: seq<Frame>, v: nat)
    requires stack != [] && v < n && stack[0].Call?
    ensures var (t, rest) := Traverse(n, capacity, s, stack);
            && t.failed == s.failed && t.main == s.main && t.workers == s.workers
            && Held(t.visited, t.pool.tasks, rest, v) == Held(s.visited, s.pool.tasks, stack, v)
  {
    hide *;
    var x, tail, tasks := stack[0].node, stack[1..], s.pool.tasks;
    StackHead(stack, v);
    HeldIs(s.visited, tasks, stack, v);
    if x < n {
      Children(x, v);
      TraverseCall(n, capacity, s, stack);
      StackCons(Spawn(x), tail, v);
      VisitMore(s.visited, x, v);
      HeldIs(s.visited + [x], tasks, [Spawn(x)] + tail, v);
    } else {
      TraverseNothing(n, capacity, s, stack);
      OutsideOwesNothing(x, v, n);
      HeldIs(s.visited, tasks, tail, v);
    }
  }

  lemma SpawnAccount(n: nat, capacity: nat, s: State, stack: seq<Frame>, v: nat)
    requires stack != [] && stack[0].Spawn?
    ensures var (t, rest) := Traverse(n, capacity, s, stack);
            && t.failed == s.failed && t.main == s.main && t.workers == s.workers
            && Held(t.visited, t.pool.tasks, rest, v) == Held(s.visited, s.pool.tasks, stack, v)
  {
    hide *;
    var x, tail, tasks := stack[0].node, stack[1..], s.pool.tasks;
    StackHead(stack, v);
    HeldIs(s.visited, tasks, stack, v);
    TraverseSpawn(n, capacity, s, stack);
    if s.pool.active < capacity {
      StackCons(Enqueue(x), tail, v);
      HeldIs(s.visited, tasks, [Enqueue(x)] + tail, v);
    } else {
      StackCons(Call(2 * x + 2), tail, v);
      StackCons(Call(2 * x + 1), [Call(2 * x + 2)] + tail, v);
      HeldIs(s.visited, tasks, [Call(2 * x + 1)] + ([Call(2 * x + 2)] + tail), v);
    }
  }

  lemma EnqueueAccount(n: nat, capacity: nat, s: State, stack: seq<Frame>, v: nat)
    requires stack != [] && !s.pool.stop && stack[0].Enqueue?
    ensures var (t, rest) := Traverse(n, capacity, s, stack);
            && t.failed == s.failed && t.main == s.main && t.workers == s.workers
            && Held(t.visited, t.pool.tasks, rest, v) == Held(s.visited, s.pool.tasks, stack, v)
  {
    hide *;
    var x, tail, tasks := stack[0].node, stack[1..], s.pool.tasks;
    StackHead(stack, v);
    HeldIs(s.visited, tasks, stack, v);
    TraverseEnqueue(n, capacity, s, stack);
    StackCons(Call(2 * x + 2), tail, v);
    QueueSnoc(tasks, 2 * x + 1, v);
    HeldIs(s.visited, tasks + [2 * x + 1], [Call(2 * x + 2)] + tail, v);
  }

  lemma TraverseCall(n: nat, capacity: nat, s: State, stack: seq<Frame>)
    requires stack != [] && stack[0].Call? && stack[0].node < n
    ensures Traverse(n, capacity, s, stack)
            == (s.(visited := s.visited + [stack[0].node]), [Spawn(stack[0].node)] + stack[1..])
  {
  }

  lemma TraverseNothing(n: nat, capacity: nat, s: State, stack: seq<Frame>)
    requires stack != [] && stack[0].Call? && stack[0].node >= n
    ensures Traverse(n, capacity, s, stack) == (s, stack[1..])
  {
  }

  lemma TraverseSpawn(n: nat, capacity: nat, s: State, stack: seq<Frame>)
    requires stack != [] && stack[0].Spawn?
    ensures var x, tail := stack[0].node, stack[1..];
            Traverse(n, capacity, s, stack)
            == (s,
                if s.pool.active < capacity then [Enqueue(x)] + tail
                    else [Call(2 * x + 1)] + ([Call(2 * x + 2)] + tail))
  {
    var x, tail := stack[0].node, stack[1..];
    assert [Call(2 * x + 1), Call(2 * x + 2)] + tail == [Call(2 * x + 1)] + ([Call(2 * x + 2)] + tail);
  }

  lemma TraverseEnqueue(n: nat, capacity: nat, s: State, stack: seq<Frame>)
    requires stack != [] && stack[0].Enqueue? && !s.pool.stop
    ensures var x, tail := stack[0].node, stack[1..];
            Traverse(n, capacity, s, stack)
            == (s.(pool := s.pool.(tasks := s.pool.tasks + [2 * x + 1])), [Call(2 * x + 2)] + tail)
  {
  }

  /** What the first frame owes, and what the rest does. */
  lemma StackHead(stack: seq<Frame>, v: nat)
    requires stack != []
    ensures var x := stack[0].node;
            StackOwes(stack, v) == StackOwes(stack[1..], v)
              + if stack[0].Call? then One(InSub(x, v)) else One(InSub(2 * x + 1, v)) + One(InSub(2 * x + 2, v))
  {
  }

  lemma StackCons(f: Frame, tail: seq<Frame>, v: nat)
    ensures StackOwes([f] + tail, v) == StackOwes(tail, v)
              + if f.Call? then One(InSub(f.node, v)) else One(InSub(2 * f.node + 1, v)) + One(InSub(2 * f.node + 2, v))
  {
    assert ([f] + tail)[1..] == tail;
  }

  lemma VisitMore(visited: seq<nat>, x: nat, v: nat)
    ensures multiset(visited + [x])[v] == multiset(visited)[v] + One(v == x)
  {
  }

  lemma OutsideOwesNothing(x: nat, v: nat, n: nat)
    requires v < n <= x
    ensures One(InSub(x, v)) == 0
  {
    if InSub(x, v) { SubBelow(x, v); }
  }

  lemma {:induction false} SomeActive(ws: seq<Worker>, w: nat)
    requires w < |ws| && ws[w].Running?
    ensures ActiveWorkers(ws) > 0
  {
    if w > 0 { SomeActive(ws[1..], w - 1); }
  }

  lemma {:induction false} NotActive(ws: seq<Worker>, w: nat)
    requires ActiveWorkers(ws) == 0 && w < |ws|
    ensures !ws[w].Running?
  {
    if w > 0 { NotActive(ws[1..], w - 1); }
  }

  lemma {:induction false} NoneActive(ws: seq<Worker>, v: nat)
    requires ActiveWorkers(ws) == 0
    ensures WorkersOwe(ws, v) == 0
  {
    if ws != [] { NoneActive(ws[1..], v); }
  }

  /** The state of a running worker is all that a step of the traversal changes, besides queue and visits. */
  lemma TraverseKeepsInv(n: nat, capacity: nat, s: State, s': State, w: nat)
    requires Inv(n, capacity, s) && w < |s.workers| && s.workers[w].Running? && s.workers[w].stack != []
    requires WorkerStep(n, capacity, s, s', w)
    ensures Inv(n, capacity, s')
  {
    var stack := s.workers[w].stack;
    var (t, rest) := Traverse(n, capacity, s, stack);
    SomeActive(s.workers, w);
    WorkersUpdate(s.workers, w, Running(rest), 0);
    forall v: nat | v < n ensures Account(s', v) == 1 {
      assert Account(s, v) == 1;
      TraverseAccount(n, capacity, s, stack, v);
      WorkersUpdate(s.workers, w, Running(rest), v);
    }
    TraverseShape(n, capacity, s, stack);
    hide Account;
  }

  lemma TraverseShape(n: nat, capacity: nat, s: State, stack: seq<Frame>)
    requires stack != [] && !s.pool.stop && !s.failed && forall x :: x in s.visited ==> x < n
    ensures var (t, rest) := Traverse(n, capacity, s, stack);
            && !t.failed && t.main == s.main && t.workers == s.workers && !t.pool.stop && t.pool.active == s.pool.active
            && (forall x :: x in t.visited ==> x < n) && (s.pool.tasks != [] ==> t.pool.tasks != [])
  {
  }

  lemma TakeKeepsInv(n: nat, capacity: nat, s: State, s': State, w: nat)
    requires Inv(n, capacity, s) && w < |s.workers| && s.workers[w].Idle? && WorkerStep(n, capacity, s, s', w)
    ensures Inv(n, capacity, s')
  {
    if s.pool.stop && s.pool.tasks == [] {
      WorkersUpdate(s.workers, w, Exited, 0);
      forall v: nat | v < n ensures Account(s', v) == 1 {
        assert Account(s, v) == 1;
        WorkersUpdate(s.workers, w, Exited, v);
      }
    } else {
      var r := Running([Call(s.pool.tasks[0])]);
      assert [Call(s.pool.tasks[0])][1..] == [];
      WorkersUpdate(s.workers, w, r, 0);
      forall v: nat | v < n ensures Account(s', v) == 1 {
        assert Account(s, v) == 1;
        WorkersUpdate(s.workers, w, r, v);
      }
    }
    hide Account;
  }

  lemma FinishKeepsInv(n: nat, capacity: nat, s: State, s': State, w: nat)
    requires Inv(n, capacity, s) && w < |s.workers| && s.workers[w] == Running([]) && WorkerStep(n, capacity, s, s', w)
    ensures Inv(n, capacity, s')
  {
    WorkersUpdate(s.workers, w, Idle, 0);
    forall v: nat | v < n ensures Account(s', v) == 1 {
      assert Account(s, v) == 1;
      WorkersUpdate(s.workers, w, Idle, v);
    }
    hide Account;
  }

  lemma MainKeepsInv(n: nat, capacity: nat, s: State, s': State)
    requires Inv(n, capacity, s) && MainStep(n, capacity, s, s')
    ensures Inv(n, capacity, s')
  {
    forall v: nat | v < n ensures Account(s', v) == 1 {
      assert Account(s, v) == 1;
      QueueSnoc([], 0, v);
      assert [] + [0] == [0];
    }
    hide Account;
  }

  /** Every step of every thread keeps the books. */
  lemma StepKeepsInv(n: nat, capacity: nat, s: State, s': State)
    requires Inv(n, capacity, s) && Step(n, capacity, s, s')
    ensures Inv(n, capacity, s')
  {
    hide Inv;
    if MainStep(n, capacity, s, s') {
      MainKeepsInv(n, capacity, s, s');
    } else {
      var w: nat :| WorkerStep(n, capacity, s, s', w);
      match s.workers[w]
      case Idle => TakeKeepsInv(n, capacity, s, s', w);
      case Running(stack) =>
        if stack == [] {
          FinishKeepsInv(n, capacity, s, s', w);
        } else {
          TraverseKeepsInv(n, capacity, s, s', w);
        }
    }
  }

  ghost predicate Run(n: nat, capacity: nat, ss: seq<State>) {
    && ss != [] && ss[0] == Start(capacity)
    && forall k, l :: 0 <= k && l == k + 1 < |ss| ==> Step(n, capacity, ss[k], ss[l])
  }

  lemma {:induction false} RunKeepsInv(n: nat, capacity: nat, ss: seq<State>, k: nat)
    requires capacity >= 1 && Run(n, capacity, ss) && k < |ss|
    ensures Inv(n, capacity, ss[k])
  {
    hide Inv, Step;
    if k == 0 {
      StartHasInv(n, capacity);
    } else {
      var j := k - 1;
      RunKeepsInv(n, capacity, ss, j);
      StepKeepsInv(n, capacity, ss[j], ss[k]);
    }
  }

  /** When wait_and_stop returns, in every interleaving, each node has been visited exactly once. */
  lemma AllVisitedOnce(n: nat, capacity: nat, ss: seq<State>, k: nat)
    requires capacity >= 1 && Run(n, capacity, ss) && k < |ss| && ss[k].main.Returned?
    ensures forall v: nat :: v < n ==> multiset(ss[k].visited)[v] == 1
    ensures forall x :: x in ss[k].visited ==> x < n
    ensures |ss[k].visited| == n
  {
    RunKeepsInv(n, capacity, ss, k);
    var s := ss[k];
    forall v: nat | v < n ensures multiset(s.visited)[v] == 1 {
      assert Account(s, v) == 1;
      NoneActive(s.workers, v);
    }
    CountVisits(n, s.visited);
  }

  ghost predicate AllBelow(visited: seq<nat>, n: nat) {
    forall x :: x in visited ==> x < n
  }

  lemma HeadBelow(visited: seq<nat>, n: nat)
    requires AllBelow(visited, n) && visited != []
    ensures n > 0
  {
    assert visited[0] in visited;
  }

  lemma {:induction false} CountVisits(n: nat, visited: seq<nat>)
    requires forall v: nat :: v < n ==> multiset(visited)[v] == 1
    requires AllBelow(visited, n)
    ensures |visited| == n
    decreases n
  {
    hide AllBelow;
    if n == 0 {
      if visited != [] { HeadBelow(visited, n); }
    } else {
      assert n - 1 in multiset(visited);
      var i :| 0 <= i < |visited| && visited[i] == n - 1;
      var rest: seq<nat> := visited[..i] + visited[i + 1..];
      WithoutOne(visited, i, rest);
      forall v: nat | v < n - 1 ensures multiset(rest)[v] == 1 { assert multiset(visited)[v] == 1; }
      OneLess(visited, rest, n);
      CountVisits(n - 1, rest);
    }
  }

  lemma OneLess(visited: seq<nat>, rest: seq<nat>, n: nat)
    requires n > 0 && AllBelow(visited, n) && multiset(visited)[n - 1] == 1 && (forall x :: x in rest ==> x in visited)
    requires forall v: nat :: multiset(visited)[v] == multiset(rest)[v] + One(v == n - 1)
    ensures AllBelow(rest, n - 1)
  {
    forall x | x in rest ensures x < n - 1 {
      assert multiset(rest)[x] > 0;
    }
  }

  lemma WithoutOne(s: seq<nat>, i: nat, rest: seq<nat>)
    requires i < |s| && rest == s[..i] + s[i + 1..]
    ensures forall v: nat :: multiset(s)[v] == multiset(rest)[v] + One(v == s[i])
    ensures |rest| == |s| - 1 && forall x :: x in rest ==> x in s
  {
    assert s == s[..i] + ([s[i]] + s[i + 1..]);
    assert multiset(s) == multiset(s[..i]) + (multiset([s[i]]) + multiset(s[i + 1..]));
    assert multiset(rest) == multiset(s[..i]) + multiset(s[i + 1..]);
  }

  /** The pool is stopped only when nothing is queued or running, and no enqueue ever meets a stopped pool. */
  lemma StoppedMeansIdle(n: nat, capacity: nat, ss: seq<State>, k: nat)
    requires capacity >= 1 && Run(n, capacity, ss) && k < |ss|
    ensures !ss[k].failed
    ensures ss[k].pool.stop ==>
            && ss[k].pool.tasks == [] && (forall w :: 0 <= w < |ss[k].workers| ==> !ss[k].workers[w].Running?)
            && (ss[k].main.Waiting? || ss[k].main.Returned?)
  {
    RunKeepsInv(n, capacity, ss, k);
    var s := ss[k];
    if s.pool.stop {
      forall w | 0 <= w < |s.workers| ensures !s.workers[w].Running? {
        if s.workers[w].Running? { SomeActive(s.workers, w); }
      }
    }
  }

  // ----- every run ends

  /** More than the number of steps that the traversal of node x can take. */
  function Cost(n: nat, x: nat): nat
    decreases if x < n then n - x else 0
  {
    if x >= n then 1 else 8 + Cost(n, 2 * x + 1) + Cost(n, 2 * x + 2)
  }

  function FrameCost(n: nat, f: Frame): nat {
    match f
    case Call(x) => Cost(n, x)
    case Spawn(x) => 6 + Cost(n, 2 * x + 1) + Cost(n, 2 * x + 2)
    case Enqueue(x) => 5 + Cost(n, 2 * x + 1) + Cost(n, 2 * x + 2)
  }

  function StackCost(n: nat, stack: seq<Frame>): nat {
    if stack == [] then 0 else FrameCost(n, stack[0]) + StackCost(n, stack[1..])
  }

  function QueueCost(n: nat, tasks: seq<nat>): nat {
    if tasks == [] then 0 else 3 + Cost(n, tasks[0]) + QueueCost(n, tasks[1..])
  }

  function WorkerCost(n: nat, w: Worker): nat {
    match w
    case Idle => 1
    case Running(stack) => 2 + StackCost(n, stack)
    case Exited => 0
  }

  function WorkersCost(n: nat, ws: seq<Worker>): nat {
    if ws == [] then 0 else WorkerCost(n, ws[0]) + WorkersCost(n, ws[1..])
  }

  function MainCost(n: nat, m: Main): nat {
    match m
    case Spawning => 7 + Cost(n, 0)
    case Enqueueing => 6 + Cost(n, 0)
    case Inlining(stack) => 2 + StackCost(n, stack)
    case Waiting => 1
    case Returned => 0
  }

  function TotalCost(n: nat, s: State): nat {
    QueueCost(n, s.pool.tasks) + WorkersCost(n, s.workers) + MainCost(n, s.main)
  }

  lemma {:induction false} QueueCostSnoc(n: nat, tasks: seq<nat>, x: nat)
    ensures QueueCost(n, tasks + [x]) == QueueCost(n, tasks) + 3 + Cost(n, x)
  {
    if tasks == [] {
      assert [x][1..] == [] && [] + [x] == [x];
    } else {
      assert (tasks + [x])[1..] == tasks[1..] + [x];
      QueueCostSnoc(n, tasks[1..], x);
    }
  }

  lemma {:induction false} WorkersCostUpdate(n: nat, ws: seq<Worker>, w: nat, x: Worker)
    requires w < |ws|
    ensures WorkersCost(n, ws[w := x]) + WorkerCost(n, ws[w]) == WorkersCost(n, ws) + WorkerCost(n, x)
  {
    if w > 0 {
      assert ws[w := x][1..] == ws[1..][w - 1 := x];
      WorkersCostUpdate(n, ws[1..], w - 1, x);
    } else {
      assert ws[w := x][1..] == ws[1..];
    }
  }

  lemma StackCostCons(n: nat, f: Frame, tail: seq<Frame>)
    ensures StackCost(n, [f] + tail) == FrameCost(n, f) + StackCost(n, tail)
  {
    assert ([f] + tail)[1..] == tail;
  }

  lemma TraverseCost(n: nat, capacity: nat, s: State, stack: seq<Frame>)
    requires stack != [] && !s.pool.stop
    ensures var (t, rest) := Traverse(n, capacity, s, stack);
            QueueCost(n, t.pool.tasks) + StackCost(n, rest) < QueueCost(n, s.pool.tasks) + StackCost(n, stack)
  {
    hide *;
    var x, tail := stack[0].node, stack[1..];
    assert stack == [stack[0]] + tail;
    StackCostCons(n, stack[0], tail);
    FrameCosts(n, x);
    StackCostCons(n, Call(2 * x + 2), tail);
    match stack[0]
    case Call(_) =>
      if x < n {
        TraverseCall(n, capacity, s, stack);
        StackCostCons(n, Spawn(x), tail);
      } else {
        TraverseNothing(n, capacity, s, stack);
      }
    case Spawn(_) =>
      TraverseSpawn(n, capacity, s, stack);
      StackCostCons(n, Enqueue(x), tail);
      StackCostCons(n, Call(2 * x + 1), [Call(2 * x + 2)] + tail);
    case Enqueue(_) =>
      TraverseEnqueue(n, capacity, s, stack);
      QueueCostSnoc(n, s.pool.tasks, 2 * x + 1);
  }

  lemma FrameCosts(n: nat, x: nat)
    ensures FrameCost(n, Call(x)) == if x >= n then 1 else FrameCost(n, Spawn(x)) + 2
    ensures FrameCost(n, Spawn(x)) == FrameCost(n, Enqueue(x)) + 1
    ensures FrameCost(n, Enqueue(x)) == 5 + Cost(n, 2 * x + 1) + Cost(n, 2 * x + 2)
    ensures FrameCost(n, Call(2 * x + 1)) == Cost(n, 2 * x + 1) && FrameCost(n, Call(2 * x + 2)) == Cost(n, 2 * x + 2)
  {
  }

  /** No run goes on forever: every step lowers the total cost. */
  lemma StepsComeToAnEnd(n: nat, capacity: nat, s: State, s': State)
    requires Inv(n, capacity, s) && Step(n, capacity, s, s')
    ensures TotalCost(n, s') < TotalCost(n, s)
  {
    if MainStep(n, capacity, s, s') {
      QueueCostSnoc(n, [], 0);
      assert [] + [0] == [0];
      hide Cost;
    } else {
      var w: nat :| WorkerStep(n, capacity, s, s', w);
      match s.workers[w]
      case Idle => TakeCosts(n, capacity, s, s', w);
      case Running(stack) =>
        if stack == [] {
          WorkersCostUpdate(n, s.workers, w, Idle);
        } else {
          SomeActive(s.workers, w);
          TraverseCost(n, capacity, s, stack);
          WorkersCostUpdate(n, s.workers, w, Running(Traverse(n, capacity, s, stack).1));
          hide Cost, StackCost, QueueCost;
        }
    }
  }

  lemma TakeCosts(n: nat, capacity: nat, s: State, s': State, w: nat)
    requires w < |s.workers| && s.workers[w].Idle? && WorkerStep(n, capacity, s, s', w)
    ensures TotalCost(n, s') < TotalCost(n, s)
  {
    if s.pool.stop && s.pool.tasks == [] {
      WorkersCostUpdate(n, s.workers, w, Exited);
    } else {
      var x := s.pool.tasks[0];
      WorkersCostUpdate(n, s.workers, w, Running([Call(x)]));
      assert [Call(x)][1..] == [];
      assert StackCost(n, [Call(x)]) == Cost(n, x);
    }
  }

  lemma {:induction false} FindActive(ws: seq<Worker>) returns (w: nat)
    requires ActiveWorkers(ws) > 0
    ensures w < |ws| && ws[w].Running?
  {
    if ws[0].Running? {
      w := 0;
    } else {
      w := FindActive(ws[1..]);
      w := w + 1;
    }
  }

  /** Until wait_and_stop returns, some thread can always take a step. */
  lemma NoDeadlock(n: nat, capacity: nat, s: State)
    requires Inv(n, capacity, s) && !s.main.Returned?
    ensures exists s' :: Step(n, capacity, s, s')
  {
    if !s.main.Waiting? || s.pool.stop {
      var s' := match s.main
        case Spawning => s.(main := Enqueueing)
        case Enqueueing => s.(pool := Enqueued(s.pool, 0).value, main := Waiting)
        case _ => s.(main := Returned);
      assert MainStep(n, capacity, s, s');
      assert Step(n, capacity, s, s');
    } else if s.pool.active > 0 {
      var w := FindActive(s.workers);
      var stack := s.workers[w].stack;
      var s' := if stack == [] then s.(pool := TaskDone(s.pool), workers := s.workers[w := Idle])
                else var (t, rest) := Traverse(n, capacity, s, stack); t.(workers := s.workers[w := Running(rest)]);
      assert WorkerStep(n, capacity, s, s', w);
      assert Step(n, capacity, s, s');
    } else {
      var t := Taken(s.pool).value;
      var s' := s.(pool := t.0, workers := s.workers[0 := Running([Call(t.1)])]);
      NotActive(s.workers, 0);
      assert WorkerStep(n, capacity, s, s', 0);
      assert Step(n, capacity, s, s');
    }
  }

  /** A pool without threads: everything runs in the main thread, and nobody stops the pool. */
  ghost predicate Alone(s: State) {
    && s.workers == [] && !s.pool.stop && s.pool.active == 0 && !s.main.Enqueueing? && !s.main.Returned?
    && (s.main.Inlining? ==> forall k :: 0 <= k < |s.main.stack| ==> !s.main.stack[k].Enqueue?)
  }

  lemma AloneStays(n: nat, s: State, s': State)
    requires Alone(s) && Step(n, 0, s, s')
    ensures Alone(s')
  {
  }

  /** That is why the capacity has to be at least 1: with none, wait_and_stop never returns. */
  lemma {:induction false} NeverReturnsWithoutThreads(n: nat, ss: seq<State>, k: nat)
    requires Run(n, 0, ss) && k < |ss|
    ensures Alone(ss[k]) && !ss[k].main.Returned?
  {
    hide Step;
    if k > 0 {
      var j := k - 1;
      NeverReturnsWithoutThreads(n, ss, j);
      AloneStays(n, ss[j], ss[k]);
    }
  }

  lemma {:induction false} StepsLeft(n: nat, capacity: nat, ss: seq<State>, k: nat)
    requires capacity >= 1 && Run(n, capacity, ss) && k < |ss|
    ensures TotalCost(n, ss[k]) + k <= TotalCost(n, Start(capacity))
    decreases k
  {
    hide Inv, Step, TotalCost;
    if k > 0 {
      var j := k - 1;
      StepsLeft(n, capacity, ss, j);
      RunKeepsInv(n, capacity, ss, j);
      assert Step(n, capacity, ss[j], ss[k]);
      StepsComeToAnEnd(n, capacity, ss[j], ss[k]);
    }
  }

  /** No thread can take a step. */
  ghost predicate Stuck(n: nat, capacity: nat, s: State) {
    forall s' :: !Step(n, capacity, s, s')
  }

  /** Every run is finite, with a bound known from the start, and when no thread can take a step any more wait_and_stop
      has returned and each node has been visited exactly once. */
  lemma EveryRunEnds(n: nat, capacity: nat, ss: seq<State>, k: nat)
    requires capacity >= 1 && Run(n, capacity, ss) && k < |ss|
    ensures k <= TotalCost(n, Start(capacity))
    ensures Stuck(n, capacity, ss[k]) ==>
              ss[k].main.Returned? && |ss[k].visited| == n && forall v: nat :: v < n ==> multiset(ss[k].visited)[v] == 1
  {
    StepsLeft(n, capacity, ss, k);
    RunKeepsInv(n, capacity, ss, k);
    hide Inv, Step, TotalCost, Run;
    if ss[k].main.Returned? {
      AllVisitedOnce(n, capacity, ss, k);
    } else {
      NoDeadlock(n, capacity, ss[k]);
    }
  }
}
