/** The on-demand emitter of a farm, and its runs with the workers. */
module OnDemandFarm {
  // The emitter hands a task to a ready worker in round-robin order, buffers it if no worker is ready, and ends the
  // stream when the input has ended and all workers are ready again. Tasks are numbered in the order of arrival.

  import opened Wrappers

  datatype EmitterState = EmitterState(ready: seq<bool>, nready: nat, last: nat, data: seq<nat>, eosReceived: bool)

  /** The first ready worker behind `last`, round the ring. */
  ghost predicate NextReady(ready: seq<bool>, last: nat, v: nat) {
    && v < |ready| && ready[v]
    && (if v > last then forall i :: last < i < v ==> !ready[i]
        else (forall i :: last < i < |ready| ==> !ready[i]) && (forall i :: 0 <= i < v ==> !ready[i]))
  }

  ghost predicate SomeReady(ready: seq<bool>) {
    exists i :: 0 <= i < |ready| && ready[i]
  }

  /** svc for a task from the input: it goes to a worker, or into the buffer. */
  ghost predicate OnInput(e: EmitterState, task: nat, e': EmitterState, sent: Option<nat>) {
    if e.nready > 0 then
      && sent.Some? && NextReady(e.ready, e.last, sent.value)
      && e' == e.(ready := e.ready[sent.value := false], nready := e.nready - 1, last := sent.value)
    else
      sent == None && e' == e.(data := e.data + [task])
  }

  datatype Reply = SendBack(task: nat) | GoOn | Eos

  /** svc for a ready flag from worker wid: the newest buffered task, or the worker becomes ready. */
  function OnFeedback(e: EmitterState, wid: nat): (r: (EmitterState, Reply))
    requires wid < |e.ready|
  {
    if e.data != [] then (e.(data := e.data[..|e.data| - 1]), SendBack(e.data[|e.data| - 1]))
    else (e.(ready := e.ready[wid := true], nready := e.nready + 1),
          if e.eosReceived && e.nready + 1 == |e.ready| then Eos else GoOn)
  }

  /** eosnotify for the input channel. */
  function OnEos(e: EmitterState): (r: (EmitterState, bool)) {
    (e.(eosReceived := true), e.nready == |e.ready| && e.data == [])
  }

  class Emitter {
    var ready: seq<bool>
    var nready: nat
    var last: nat
    var data: seq<nat>
    var eosReceived: bool

    ghost function State(): EmitterState
      reads this
    {
      EmitterState(ready, nready, last, data, eosReceived)
    }

    /** svc_init. */
    constructor (channels: nat)
      ensures State() == EmitterState(seq(channels, _ => true), channels, channels, [], false)
    {
      ready, nready, last, data, eosReceived := seq(channels, _ => true), channels, channels, [], false;
    }

    /** -1 when no worker is ready. The first call starts behind the last worker, which is why some worker has to be
        ready then. */
    method SelectReadyWorker() returns (victim: int)
      requires SomeReady(ready) || last < |ready|
      modifies `last
      ensures if SomeReady(ready) then victim >= 0 && NextReady(ready, old(last), victim) && last == victim
              else victim == -1 && last == old(last)
    {
      var i := last + 1;
      while i < |ready|
        invariant last < i && (i <= |ready| || i == last + 1) && forall k :: last < k < i && k < |ready| ==> !ready[k]
      {
        if ready[i] {
          last := i;
          return i;
        }
        i := i + 1;
      }
      i := 0;
      while i <= last
        invariant i <= last + 1 && (forall k :: 0 <= k < i ==> k < |ready| && !ready[k])
      {
        if ready[i] {
          last := i;
          return i;
        }
        i := i + 1;
      }
      victim := -1;
    }

    method FromInput(task: nat) returns (sent: Option<nat>)
      requires nready > 0 ==> SomeReady(ready)
      modifies this
      ensures OnInput(old(State()), task, State(), sent)
    {
      if nready > 0 {
        var victim := SelectReadyWorker();
        ready := ready[victim := false];
        nready := nready - 1;
        sent := Some(victim);
      } else {
        data := data + [task];
        sent := None;
      }
    }

    method FromWorker(wid: nat) returns (reply: Reply)
      requires wid < |ready|
      modifies this
      ensures (State(), reply) == OnFeedback(old(State()), wid)
    {
      if |data| > 0 {
        reply := SendBack(data[|data| - 1]);
        data := data[..|data| - 1];
      } else {
        ready := ready[wid := true];
        nready := nready + 1;
        if eosReceived && nready == |ready| { return Eos; }
        reply := GoOn;
      }
    }

    method EosNotify() returns (broadcast: bool)
      modifies this
      ensures (State(), broadcast) == OnEos(old(State()))
    {
      eosReceived := true;
      broadcast := nready == |ready| && |data| == 0;
    }
  }

  // ----- runs

  /** What each worker holds, how many tasks have arrived, which were handed out in which order, and how often the
      end of the stream was issued. */
  datatype State = State(e: EmitterState, holding: seq<Option<nat>>, arrived: nat, dispatched: seq<nat>,
                         inputDone: bool, eos: nat)

  function Start(n: nat): State {
    State(EmitterState(seq(n, _ => true), n, n, [], false), seq(n, _ => None), 0, [], false, 0)
  }

  function AfterArrive(s: State, e: EmitterState, sent: Option<nat>): State {
    if sent.Some? && sent.value < |s.holding| then
      s.(e := e, arrived := s.arrived + 1, holding := s.holding[sent.value := Some(s.arrived)],
         dispatched := s.dispatched + [s.arrived])
    else
      s.(e := e, arrived := s.arrived + 1)
  }

  ghost predicate Arrive(length: nat, s: State, s': State) {
    && s.arrived < length && !s.inputDone
    && exists e', sent :: OnInput(s.e, s.arrived, e', sent) && s' == AfterArrive(s, e', sent)
  }

  function AfterInput(s: State): State {
    var (e', broadcast) := OnEos(s.e);
    s.(e := e', inputDone := true, eos := s.eos + if broadcast then 1 else 0)
  }

  ghost predicate InputEnds(length: nat, s: State, s': State) {
    s.arrived == length && !s.inputDone && s' == AfterInput(s)
  }

  function AfterFeedback(s: State, w: nat): State
    requires w < |s.holding| && w < |s.e.ready|
  {
    var (e', reply) := OnFeedback(s.e, w);
    match reply
    case SendBack(t) => s.(e := e', holding := s.holding[w := Some(t)], dispatched := s.dispatched + [t])
    case GoOn => s.(e := e', holding := s.holding[w := None])
    case Eos => s.(e := e', holding := s.holding[w := None], eos := s.eos + 1)
  }

  /** Worker w is done with its task and sends its ready flag. */
  ghost predicate Feedback(s: State, s': State, w: nat) {
    w < |s.holding| && w < |s.e.ready| && s.holding[w].Some? && s' == AfterFeedback(s, w)
  }

  ghost predicate Step(length: nat, s: State, s': State) {
    Arrive(length, s, s') || InputEnds(length, s, s') || exists w: nat :: Feedback(s, s', w)
  }

  function CountTrue(b: seq<bool>): nat {
    if b == [] then 0 else (if b[0] then 1 else 0) + CountTrue(b[1..])
  }

  lemma {:induction false} CountUpdate(b: seq<bool>, i: nat, x: bool)
    requires i < |b|
    ensures CountTrue(b[i := x]) + (if b[i] then 1 else 0) == CountTrue(b) + if x then 1 else 0
  {
    if i > 0 {
      assert b[i := x][1..] == b[1..][i - 1 := x];
      CountUpdate(b[1..], i - 1, x);
    } else {
      assert b[i := x][1..] == b[1..];
    }
  }

  lemma {:induction false} CountBound(b: seq<bool>)
    ensures CountTrue(b) <= |b|
    ensures CountTrue(b) == |b| <==> forall i :: 0 <= i < |b| ==> b[i]
    ensures CountTrue(b) > 0 <==> SomeReady(b)
  {
    if b != [] {
      CountBound(b[1..]);
      assert (forall i :: 0 <= i < |b| ==> b[i]) <==> b[0] && forall i :: 0 <= i < |b[1..]| ==> b[1..][i] by {
        if b[0] && forall i :: 0 <= i < |b[1..]| ==> b[1..][i] {
          forall i | 0 <= i < |b| ensures b[i] { if i > 0 { assert b[i] == b[1..][i - 1]; } }
        }
      }
      if SomeReady(b[1..]) {
        var i :| 0 <= i < |b[1..]| && b[1..][i];
        assert b[i + 1];
      }
      if SomeReady(b) && !b[0] {
        var i :| 0 <= i < |b| && b[i];
        assert b[1..][i - 1];
      }
    }
  }

  function UpTo(k: nat): (m: multiset<nat>)
    ensures forall t: nat :: m[t] == if t < k then 1 else 0
  {
    if k == 0 then multiset{} else UpTo(k - 1) + multiset{k - 1}
  }

  /** Every task that has arrived was either handed out once or is in the buffer once. */
  ghost predicate Handed(dispatched: seq<nat>, data: seq<nat>, arrived: nat) {
    multiset(dispatched) + multiset(data) == UpTo(arrived)
  }

  lemma HandedSteps(dispatched: seq<nat>, data: seq<nat>, arrived: nat)
    requires Handed(dispatched, data, arrived)
    ensures Handed(dispatched + [arrived], data, arrived + 1) && Handed(dispatched, data + [arrived], arrived + 1)
    ensures data != [] ==> Handed(dispatched + [data[|data| - 1]], data[..|data| - 1], arrived)
  {
    if data != [] { assert data == data[..|data| - 1] + [data[|data| - 1]]; }
  }

  ghost predicate Inv(length: nat, n: nat, s: State) {
    && n >= 1 && |s.e.ready| == n && |s.holding| == n && s.e.last <= n
    && s.e.nready == CountTrue(s.e.ready)
    && (forall w :: 0 <= w < n ==> s.e.ready[w] == s.holding[w].None?)
    && (s.e.data != [] ==> s.e.nready == 0)
    && s.e.eosReceived == s.inputDone && (s.inputDone ==> s.arrived == length) && s.arrived <= length
    && s.eos == (if s.inputDone && s.e.nready == n then 1 else 0)
    && Handed(s.dispatched, s.e.data, s.arrived)
    && (forall w :: 0 <= w < n && s.holding[w].Some? ==> s.holding[w].value in s.dispatched)
  }

  lemma StartHasInv(length: nat, n: nat)
    requires n >= 1
    ensures Inv(length, n, Start(n))
  {
    CountBound(Start(n).e.ready);
  }

  lemma ArriveKeepsInv(length: nat, n: nat, s: State, s': State)
    requires Inv(length, n, s) && Arrive(length, s, s')
    ensures Inv(length, n, s')
  {
    var e', sent :| OnInput(s.e, s.arrived, e', sent) && s' == AfterArrive(s, e', sent);
    if s.e.nready > 0 {
      ArriveSent(length, n, s, sent.value);
    } else {
      ArriveBuffered(length, n, s);
    }
  }

  lemma ArriveSent(length: nat, n: nat, s: State, v: nat)
    requires Inv(length, n, s) && s.arrived < length && !s.inputDone && s.e.nready > 0 && v < n && s.e.ready[v]
    ensures Inv(length, n,
                AfterArrive(s, s.e.(ready := s.e.ready[v := false], nready := s.e.nready - 1, last := v), Some(v)))
  {
    HandedSteps(s.dispatched, s.e.data, s.arrived);
    CountBound(s.e.ready);
    CountUpdate(s.e.ready, v, false);
    hide CountTrue, Handed;
  }

  lemma ArriveBuffered(length: nat, n: nat, s: State)
    requires Inv(length, n, s) && s.arrived < length && !s.inputDone && s.e.nready == 0
    ensures Inv(length, n, AfterArrive(s, s.e.(data := s.e.data + [s.arrived]), None))
  {
    HandedSteps(s.dispatched, s.e.data, s.arrived);
    hide CountTrue, Handed;
  }

  lemma InputEndsKeepsInv(length: nat, n: nat, s: State, s': State)
    requires Inv(length, n, s) && InputEnds(length, s, s')
    ensures Inv(length, n, s')
  {
  }

  lemma FeedbackKeepsInv(length: nat, n: nat, s: State, s': State, w: nat)
    requires Inv(length, n, s) && Feedback(s, s', w)
    ensures Inv(length, n, s')
  {
    CountUpdate(s.e.ready, w, true);
    CountBound(s.e.ready);
    HandedSteps(s.dispatched, s.e.data, s.arrived);
    hide CountTrue, Handed;
    if s.e.data != [] {
      assert s'.e == s.e.(data := s.e.data[..|s.e.data| - 1]);
    } else {
      assert s'.e == s.e.(ready := s.e.ready[w := true], nready := s.e.nready + 1);
    }
  }

  lemma StepKeepsInv(length: nat, n: nat, s: State, s': State)
    requires Inv(length, n, s) && Step(length, s, s')
    ensures Inv(length, n, s')
  {
    hide Inv;
    if Arrive(length, s, s') {
      ArriveKeepsInv(length, n, s, s');
    } else if InputEnds(length, s, s') {
      InputEndsKeepsInv(length, n, s, s');
    } else {
      var w: nat :| Feedback(s, s', w);
      FeedbackKeepsInv(length, n, s, s', w);
    }
  }

  ghost predicate Run(length: nat, n: nat, ss: seq<State>) {
    && ss != [] && ss[0] == Start(n)
    && forall k, l :: 0 <= k && l == k + 1 < |ss| ==> Step(length, ss[k], ss[l])
  }

  lemma {:induction false} RunKeepsInv(length: nat, n: nat, ss: seq<State>, k: nat)
    requires n >= 1 && Run(length, n, ss) && k < |ss|
    ensures Inv(length, n, ss[k])
  {
    hide Inv, Step;
    if k == 0 {
      StartHasInv(length, n);
    } else {
      var j := k - 1;
      RunKeepsInv(length, n, ss, j);
      StepKeepsInv(length, n, ss[j], ss[k]);
    }
  }

  /** The end of the stream is issued at most once, and then nothing is buffered or in a worker and every input
      task has been handed out exactly once. */
  lemma EosMeansDone(length: nat, n: nat, ss: seq<State>, k: nat)
    requires n >= 1 && Run(length, n, ss) && k < |ss|
    ensures ss[k].eos <= 1
    ensures ss[k].eos == 1 ==>
              && ss[k].e.data == [] && (forall w :: 0 <= w < n ==> w < |ss[k].holding| && ss[k].holding[w] == None)
              && multiset(ss[k].dispatched) == UpTo(length)
  {
    RunKeepsInv(length, n, ss, k);
    CountBound(ss[k].e.ready);
    hide CountTrue;
    var s := ss[k];
    if s.eos == 1 {
      assert multiset(s.dispatched) + multiset(s.e.data) == multiset(s.dispatched);
    }
  }

  /** The buffer holds tasks in the order of arrival. */
  ghost predicate InOrder(s: State) {
    && (forall i, j :: 0 <= i < j < |s.e.data| ==> s.e.data[i] < s.e.data[j])
    && forall i :: 0 <= i < |s.e.data| ==> s.e.data[i] < s.arrived
  }

  lemma StepKeepsOrder(length: nat, s: State, s': State)
    requires InOrder(s) && Step(length, s, s')
    ensures InOrder(s')
  {
    hide NextReady;
  }

  lemma {:induction false} RunKeepsOrder(length: nat, n: nat, ss: seq<State>, k: nat)
    requires Run(length, n, ss) && k < |ss|
    ensures InOrder(ss[k])
  {
    hide Step;
    if k > 0 {
      var j := k - 1;
      RunKeepsOrder(length, n, ss, j);
      hide InOrder;
      StepKeepsOrder(length, ss[j], ss[k]);
    }
  }

  /** The task t arrived after all of the others. */
  predicate NoneNewer(others: seq<nat>, t: nat) {
    forall i :: 0 <= i < |others| ==> others[i] < t
  }

  /** The task that a step hands out arrived after all that stay in the buffer. */
  lemma NewestFirst(length: nat, n: nat, ss: seq<State>, k: nat)
    requires n >= 1 && Run(length, n, ss) && k + 1 < |ss| && ss[k + 1].dispatched != ss[k].dispatched
    ensures |ss[k + 1].dispatched| == |ss[k].dispatched| + 1 && ss[k].dispatched <= ss[k + 1].dispatched
    ensures NoneNewer(ss[k + 1].e.data, ss[k + 1].dispatched[|ss[k].dispatched|])
  {
    var l := k + 1;
    RunKeepsInv(length, n, ss, k);
    RunKeepsOrder(length, n, ss, k);
    assert Step(length, ss[k], ss[l]);
    HandsOutNewest(length, n, ss[k], ss[l]);
  }

  lemma HandsOutNewest(length: nat, n: nat, s: State, s': State)
    requires Inv(length, n, s) && InOrder(s) && Step(length, s, s') && s'.dispatched != s.dispatched
    ensures |s'.dispatched| == |s.dispatched| + 1 && s.dispatched <= s'.dispatched
    ensures NoneNewer(s'.e.data, s'.dispatched[|s.dispatched|])
  {
    hide NextReady, CountTrue, Handed;
  }

  /** When the emitter is asked for a ready worker there is one, and the search stays in bounds. */
  lemma VictimExists(length: nat, n: nat, s: State)
    requires Inv(length, n, s) && s.e.nready > 0
    ensures SomeReady(s.e.ready) && exists v :: NextReady(s.e.ready, s.e.last, v)
  {
    CountBound(s.e.ready);
    var v := FirstReady(s.e.ready, s.e.last);
  }

  lemma FirstReady(ready: seq<bool>, last: nat) returns (v: nat)
    requires SomeReady(ready)
    ensures NextReady(ready, last, v)
  {
    if exists i :: last < i < |ready| && ready[i] {
      v := last + 1;
      while !ready[v]
        invariant last < v < |ready| && (forall i :: last < i < v ==> !ready[i])
                  && exists i :: v <= i < |ready| && ready[i]
        decreases |ready| - v
      {
        v := v + 1;
      }
    } else {
      v := 0;
      while !ready[v]
        invariant v < |ready| && (forall i :: 0 <= i < v ==> !ready[i]) && exists i :: v <= i < |ready| && ready[i]
        decreases |ready| - v
      {
        v := v + 1;
      }
    }
  }

  /** As long as the end of the stream has not been issued, something can happen. */
  lemma NoDeadlock(length: nat, n: nat, s: State)
    requires Inv(length, n, s) && s.eos == 0
    ensures exists s' :: Step(length, s, s')
  {
    CountBound(s.e.ready);
    if s.arrived < length {
      var e', sent;
      if s.e.nready > 0 {
        var v := FirstReady(s.e.ready, s.e.last);
        e', sent := s.e.(ready := s.e.ready[v := false], nready := s.e.nready - 1, last := v), Some(v);
      } else {
        e', sent := s.e.(data := s.e.data + [s.arrived]), None;
      }
      assert OnInput(s.e, s.arrived, e', sent);
      assert Arrive(length, s, AfterArrive(s, e', sent));
      assert Step(length, s, AfterArrive(s, e', sent));
    } else if !s.inputDone {
      assert InputEnds(length, s, AfterInput(s));
      assert Step(length, s, AfterInput(s));
    } else {
      var w :| 0 <= w < n && !s.e.ready[w];
      assert Feedback(s, AfterFeedback(s, w), w);
      assert Step(length, s, AfterFeedback(s, w));
    }
  }

  /** What is left to happen: arrivals, buffered tasks, tasks in workers and the end of the input. */
  function Left(length: nat, n: nat, s: State): int {
    3 * (length - s.arrived) + 2 * |s.e.data| + (n - s.e.nready) + if s.inputDone then 0 else 1
  }

  /** Every run comes to an end, and by NoDeadlock it ends with the end of the stream issued. */
  lemma StepsComeToAnEnd(length: nat, n: nat, s: State, s': State)
    requires Inv(length, n, s) && Step(length, s, s')
    ensures 0 <= Left(length, n, s') < Left(length, n, s)
  {
    hide *;
    StepKeepsInv(length, n, s, s');
    NoneNegative(length, n, s');
    LessLeft(length, n, s, s');
  }

  lemma NoneNegative(length: nat, n: nat, s: State)
    requires Inv(length, n, s)
    ensures 0 <= Left(length, n, s)
  {
    CountBound(s.e.ready);
    hide CountTrue, Handed;
  }

  lemma LessLeft(length: nat, n: nat, s: State, s': State)
    requires Inv(length, n, s) && Step(length, s, s')
    ensures Left(length, n, s') < Left(length, n, s)
  {
    hide CountTrue, Handed, NextReady;
  }

  lemma {:induction false} StepsLeft(length: nat, n: nat, ss: seq<State>, k: nat)
    requires n >= 1 && Run(length, n, ss) && k < |ss|
    ensures 0 <= Left(length, n, ss[k]) <= 3 * length + 1 - k
    decreases k
  {
    hide Inv, Step;
    if k == 0 {
      assert Left(length, n, Start(n)) == 3 * length + 1;
    } else {
      var j := k - 1;
      StepsLeft(length, n, ss, j);
      RunKeepsInv(length, n, ss, j);
      assert Step(length, ss[j], ss[k]);
      StepsComeToAnEnd(length, n, ss[j], ss[k]);
    }
  }

  /** Every run has at most 3 * length + 1 steps, and when nothing can happen any more the end of the stream has been
      issued exactly once, with every input task handed out exactly once and nothing left in buffer or workers. */
  lemma EveryRunEnds(length: nat, n: nat, ss: seq<State>, k: nat)
    requires n >= 1 && Run(length, n, ss) && k < |ss|
    ensures k <= 3 * length + 1
    ensures Stuck(length, ss[k]) ==>
              && ss[k].eos == 1 && ss[k].e.data == [] && multiset(ss[k].dispatched) == UpTo(length)
              && forall w :: 0 <= w < n ==> w < |ss[k].holding| && ss[k].holding[w] == None
  {
    StepsLeft(length, n, ss, k);
    RunKeepsInv(length, n, ss, k);
    EosMeansDone(length, n, ss, k);
    hide Inv, Step;
    if Stuck(length, ss[k]) && ss[k].eos == 0 { NoDeadlock(length, n, ss[k]); }
  }

  /** Nothing can happen. */
  ghost predicate Stuck(length: nat, s: State) {
    forall s' :: !Step(length, s, s')
  }
}
