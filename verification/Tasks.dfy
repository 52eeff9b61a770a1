/**
 Synchronous tasks of `schedule`: a shared queue, a bounded recycled queue per
 worker thread, and the task each thread is running. Steps of all threads
 interleave freely.
 */
module Tasks {
  import opened Words

  datatype Slot = Empty | Holds(task: nat)

  /** Threads 0 .. |recycled| - 1 are the sync workers; the last slot of `running` is the timer thread. */
  datatype State = State(
    shared: seq<nat>,
    recycled: seq<seq<nat>>,
    running: seq<Slot>,
    exiting: seq<bool>,
    done: multiset<nat>,
    next: nat)

  datatype Caller = Outside | Worker(thread: nat)

  datatype Label =
    | SetTask(caller: Caller, recyclable: bool)
    | TakeOwn(thread: nat)
    | TakeShared(thread: nat, index: nat)
    | Finish(thread: nat)
    | Stop(thread: nat)
    | Drain(thread: nat)

  ghost predicate Shape(s: State)
  {
    |s.running| == |s.recycled| + 1 && |s.exiting| == |s.recycled|
  }

  /** `fast_bypass_enqueue`: only a sync worker of several, with room in its own queue. */
  predicate Bypasses(s: State, caller: Caller, recyclable: bool, max: nat)
  {
    && recyclable && |s.recycled| > 1 && caller.Worker? && caller.thread < |s.recycled|
    && |s.recycled[caller.thread]| < max
  }

  ghost predicate Step(s: State, l: Label, s': State, max: nat)
    requires Shape(s)
  {
    match l
    case SetTask(caller, recyclable) =>
      && (caller.Worker? && caller.thread < |s.recycled| ==> !s.exiting[caller.thread])
      && if Bypasses(s, caller, recyclable, max) then
           s' == s.(recycled := s.recycled[caller.thread := s.recycled[caller.thread] + [s.next]], next := s.next + 1)
         else
           s' == s.(shared := s.shared + [s.next], next := s.next + 1)
    case TakeOwn(t) =>
      && t < |s.recycled| && !s.exiting[t] && s.running[t] == Empty && s.recycled[t] != []
      && s' == s.(recycled := s.recycled[t := s.recycled[t][1..]], running := s.running[t := Holds(s.recycled[t][0])])
    case TakeShared(t, i) =>
      && t < |s.running| && s.running[t] == Empty && i < |s.shared|
      && (t < |s.recycled| ==> !s.exiting[t] && s.recycled[t] == [])
      && s' == s.(shared := s.shared[..i] + s.shared[i + 1..], running := s.running[t := Holds(s.shared[i])])
    case Finish(t) =>
      && t < |s.running| && s.running[t].Holds?
      && s' == s.(running := s.running[t := Empty], done := s.done + multiset{s.running[t].task})
    case Stop(t) =>
      && t < |s.recycled| && s.running[t] == Empty
      && s' == s.(exiting := s.exiting[t := true])
    case Drain(t) =>
      && t < |s.recycled| && s.exiting[t] && s.recycled[t] != []
      && s' == s.(shared := s.shared + [s.recycled[t][0]], recycled := s.recycled[t := s.recycled[t][1..]])
  }

  // ---------------------------------------------------------------------
  // Every task, wherever it is
  // ---------------------------------------------------------------------

  /** How often task t is in a queue. */
  ghost function Count(q: seq<nat>, t: nat): nat
  {
    multiset(q)[t]
  }

  ghost function InQueues(q: seq<seq<nat>>, t: nat): nat
  {
    if q == [] then 0 else Count(q[0], t) + InQueues(q[1..], t)
  }

  ghost function InSlot(r: Slot, t: nat): nat
  {
    if r == Holds(t) then 1 else 0
  }

  ghost function InSlots(r: seq<Slot>, t: nat): nat
  {
    if r == [] then 0 else InSlot(r[0], t) + InSlots(r[1..], t)
  }

  /** How often task t is in the shared queue, the recycled queues, the running slots and among the done together. */
  ghost function Places(s: State, t: nat): nat
  {
    Count(s.shared, t) + InQueues(s.recycled, t) + InSlots(s.running, t) + s.done[t]
  }

  /** Each accepted task is in exactly one place, exactly once; nothing else is anywhere. */
  ghost predicate Accounted(s: State)
  {
    forall t: nat :: Places(s, t) == if t < s.next then 1 else 0
  }

  ghost predicate Bounded(s: State, max: nat)
  {
    forall i :: 0 <= i < |s.recycled| ==> |s.recycled[i]| <= max
  }

  ghost predicate Inv(s: State, max: nat)
  {
    Shape(s) && Accounted(s) && Bounded(s, max)
  }

  lemma {:induction false} QueueReplaced(q: seq<seq<nat>>, i: nat, x: seq<nat>, t: nat)
    requires i < |q|
    ensures InQueues(q[i := x], t) == InQueues(q, t) - Count(q[i], t) + Count(x, t)
    decreases |q|
  {
    hide Count;
    var q' := q[i := x];
    if i > 0 {
      QueueReplaced(q[1..], i - 1, x, t);
      assert q'[1..] == q[1..][i - 1 := x];
    } else {
      assert q'[1..] == q[1..];
    }
  }

  lemma {:induction false} SlotReplaced(r: seq<Slot>, i: nat, x: Slot, t: nat)
    requires i < |r|
    ensures InSlots(r[i := x], t) == InSlots(r, t) - InSlot(r[i], t) + InSlot(x, t)
    decreases |r|
  {
    var r' := r[i := x];
    if i > 0 {
      SlotReplaced(r[1..], i - 1, x, t);
      assert r'[1..] == r[1..][i - 1 := x];
    } else {
      assert r'[1..] == r[1..];
    }
  }

  lemma {:induction false} CountTaken(q: seq<nat>, i: nat, t: nat)
    requires i < |q|
    ensures Count(q, t) == Count(q[..i] + q[i + 1..], t) + (if q[i] == t then 1 else 0)
  {
    assert q == q[..i] + [q[i]] + q[i + 1..];
    assert multiset(q) == multiset(q[..i]) + multiset{q[i]} + multiset(q[i + 1..]);
  }

  lemma {:induction false} CountFirst(q: seq<nat>, t: nat)
    requires q != []
    ensures Count(q, t) == Count(q[1..], t) + (if q[0] == t then 1 else 0)
  {
    CountTaken(q, 0, t);
    assert q[..0] + q[1..] == q[1..];
  }

  lemma {:induction false} CountAppend(q: seq<nat>, x: nat, t: nat)
    ensures Count(q + [x], t) == Count(q, t) + (if x == t then 1 else 0)
  {
  }

  /** A step either adds exactly the next task or moves tasks without losing or copying one. */
  lemma {:induction false} StepConserves(s: State, l: Label, s': State, max: nat, x: nat)
    requires Shape(s) && Step(s, l, s', max)
    ensures Places(s', x) == Places(s, x) + (if l.SetTask? && x == s.next then 1 else 0)
    ensures s'.next == s.next + (if l.SetTask? then 1 else 0)
  {
    hide InQueues, InSlots, Count;
    match l
    case SetTask(caller, recyclable) =>
      if Bypasses(s, caller, recyclable, max) {
        QueueReplaced(s.recycled, caller.thread, s.recycled[caller.thread] + [s.next], x);
        CountAppend(s.recycled[caller.thread], s.next, x);
      } else {
        CountAppend(s.shared, s.next, x);
      }
    case TakeOwn(t) =>
      QueueReplaced(s.recycled, t, s.recycled[t][1..], x);
      CountFirst(s.recycled[t], x);
      SlotReplaced(s.running, t, Holds(s.recycled[t][0]), x);
    case TakeShared(t, i) =>
      CountTaken(s.shared, i, x);
      SlotReplaced(s.running, t, Holds(s.shared[i]), x);
    case Finish(t) =>
      SlotReplaced(s.running, t, Empty, x);
    case Stop(t) =>
    case Drain(t) =>
      QueueReplaced(s.recycled, t, s.recycled[t][1..], x);
      CountFirst(s.recycled[t], x);
      CountAppend(s.shared, s.recycled[t][0], x);
  }

  lemma {:induction false} StepKeepsInv(s: State, l: Label, s': State, max: nat)
    requires Inv(s, max) && Step(s, l, s', max)
    ensures Inv(s', max)
  {
    forall t: nat
      ensures Places(s', t) == if t < s'.next then 1 else 0
    {
      hide Places, Step, Bounded;
      StepConserves(s, l, s', max, t);
      assert Places(s, t) == if t < s.next then 1 else 0;
    }
    hide Places;
  }

  // ---------------------------------------------------------------------
  // Runs
  // ---------------------------------------------------------------------

  ghost predicate Init(s: State)
  {
    && Shape(s) && s.shared == [] && s.done == multiset{} && s.next == 0
    && (forall i :: 0 <= i < |s.recycled| ==> s.recycled[i] == [])
    && (forall i :: 0 <= i < |s.running| ==> s.running[i] == Empty)
  }

  lemma {:induction false} NothingQueued(q: seq<seq<nat>>, t: nat)
    requires forall i :: 0 <= i < |q| ==> q[i] == []
    ensures InQueues(q, t) == 0
    decreases |q|
  {
    if q != [] {
      NothingQueued(q[1..], t);
    }
  }

  lemma {:induction false} NothingRunning(r: seq<Slot>, t: nat)
    requires forall i :: 0 <= i < |r| ==> r[i] == Empty
    ensures InSlots(r, t) == 0
    decreases |r|
  {
    if r != [] {
      NothingRunning(r[1..], t);
    }
  }

  ghost predicate Run(states: seq<State>, labels: seq<Label>, max: nat)
  {
    && |states| == |labels| + 1
    && Init(states[0])
    && forall i :: 0 <= i < |labels| ==> Shape(states[i]) && Step(states[i], labels[i], states[i + 1], max)
  }

  /**
   In every run, at every point: each accepted task is in exactly one place and no recycled queue is over its
   bound.
   */
  lemma {:induction false} EveryTaskInOnePlace(states: seq<State>, labels: seq<Label>, max: nat, n: nat)
    requires Run(states, labels, max) && n < |states|
    ensures Inv(states[n], max)
  {
    if n == 0 {
      forall t: nat
        ensures Places(states[0], t) == 0
      {
        NothingQueued(states[0].recycled, t);
        NothingRunning(states[0].running, t);
      }
    } else {
      EveryTaskInOnePlace(states, labels, max, n - 1);
      assert Step(states[n - 1], labels[n - 1], states[n], max);
      StepKeepsInv(states[n - 1], labels[n - 1], states[n], max);
    }
  }

  /** When every queue is empty and nothing runs, every accepted task has run exactly once. */
  lemma {:induction false} DrainedMeansDone(states: seq<State>, labels: seq<Label>, max: nat, n: nat)
    requires Run(states, labels, max) && n < |states|
    requires states[n].shared == [] && (forall i :: 0 <= i < |states[n].recycled| ==> states[n].recycled[i] == [])
    requires forall i :: 0 <= i < |states[n].running| ==> states[n].running[i] == Empty
    ensures forall t: nat :: states[n].done[t] == if t < states[n].next then 1 else 0
  {
    EveryTaskInOnePlace(states, labels, max, n);
    forall t: nat
      ensures states[n].done[t] == if t < states[n].next then 1 else 0
    {
      NothingQueued(states[n].recycled, t);
      NothingRunning(states[n].running, t);
      assert Places(states[n], t) == states[n].done[t];
    }
  }

  // ---------------------------------------------------------------------
  // A worker's own tasks run in the order it was given them
  // ---------------------------------------------------------------------

  /** Tasks in a recycled queue stand in the order in which they were accepted. */
  ghost predicate Ordered(s: State)
  {
    forall i :: 0 <= i < |s.recycled| ==> Ascending(s.recycled[i], s.next)
  }

  ghost predicate Ascending(q: seq<nat>, next: nat)
  {
    && (forall i, j :: 0 <= i < j < |q| ==> q[i] < q[j])
    && (forall i :: 0 <= i < |q| ==> q[i] < next)
  }

  lemma {:induction false} StepKeepsOrder(s: State, l: Label, s': State, max: nat)
    requires Shape(s) && Step(s, l, s', max) && Ordered(s)
    ensures Ordered(s')
    ensures l.TakeOwn? ==>
              forall i :: 0 <= i < |s'.recycled[l.thread]| ==> s'.running[l.thread].task < s'.recycled[l.thread][i]
  {
    forall i | 0 <= i < |s'.recycled|
      ensures Ascending(s'.recycled[i], s'.next)
    {
      assert Ascending(s.recycled[i], s.next);
    }
  }

  /** In every run a worker takes the oldest task of its own queue, and only then a shared one. */
  lemma {:induction false} OwnTasksInOrder(states: seq<State>, labels: seq<Label>, max: nat, n: nat)
    requires Run(states, labels, max) && n < |states|
    ensures Ordered(states[n]) && Shape(states[n])
    ensures n > 0 && labels[n - 1].TakeOwn? ==>
              var t := labels[n - 1].thread;
              t < |states[n].recycled| && states[n].running[t].Holds?
              && forall i :: 0 <= i < |states[n].recycled[t]| ==> states[n].running[t].task < states[n].recycled[t][i]
    ensures n > 0 && labels[n - 1].TakeShared? ==>
              var t := labels[n - 1].thread; t < |states[n].recycled| ==> states[n].recycled[t] == []
  {
    if n > 0 {
      OwnTasksInOrder(states, labels, max, n - 1);
      assert Step(states[n - 1], labels[n - 1], states[n], max);
      StepKeepsOrder(states[n - 1], labels[n - 1], states[n], max);
    }
  }

  // ---------------------------------------------------------------------
  // The object
  // ---------------------------------------------------------------------

  class Pool {
    var shared: seq<nat>
    var recycled: seq<seq<nat>>
    var running: seq<Slot>
    var exiting: seq<bool>
    var next: nat
    var enqueue: bool
    const maxRecycles: nat
    ghost var done: multiset<nat>

    ghost function View(): State
      reads this
    {
      State(shared, recycled, running, exiting, done, next)
    }

    constructor (workers: nat, maxRecycles: nat)
      ensures Init(View()) && enqueue && |recycled| == workers && this.maxRecycles == maxRecycles
    {
      shared, next, enqueue, done := [], 0, true, multiset{};
      recycled, running, exiting := Repeat([], workers), Repeat(Empty, workers + 1), Repeat(false, workers);
      this.maxRecycles := maxRecycles;
    }

    /** `fast_bypass_enqueue`: into the calling worker's own queue, if it is one of several and has room. */
    method FastBypassEnqueue(caller: Caller, task: nat) returns (taken: bool)
      modifies this`recycled
      ensures taken <==> |old(recycled)| > 1 && caller.Worker? && caller.thread < |old(recycled)|
                         && |old(recycled)[caller.thread]| < maxRecycles
      ensures recycled
              == if taken then old(recycled)[caller.thread := old(recycled)[caller.thread] + [task]] else old(recycled)
    {
      if |recycled| <= 1 {
        return false;
      }
      if caller.Outside? || caller.thread >= |recycled| || |recycled[caller.thread]| >= maxRecycles {
        return false;
      }
      recycled := recycled[caller.thread := recycled[caller.thread] + [task]];
      return true;
    }

    /** `set_task`: callbacks only run on threads that have not left their loop. */
    method SetTask(caller: Caller, recyclable: bool) returns (accepted: bool)
      requires Shape(View()) && (caller.Worker? && caller.thread < |recycled| ==> !exiting[caller.thread])
      modifies this
      ensures enqueue == old(enqueue) && accepted == old(enqueue)
      ensures if accepted then Step(old(View()), Label.SetTask(caller, recyclable), View(), maxRecycles)
          else View() == old(View())
    {
      if !enqueue {
        return false;
      }
      var bypassed := false;
      if recyclable {
        bypassed := FastBypassEnqueue(caller, next);
      }
      if !bypassed {
        shared := shared + [next];
      }
      next := next + 1;
      return true;
    }

    /**
     The start of a worker's round: its own queue first, and only when that is empty the shared one,
     which may hand out any of its tasks. The answer is the step taken.
     */
    method Acquire(thread: nat) returns (got: bool, ghost step: Label)
      requires Shape(View()) && thread < |recycled| && !exiting[thread] && running[thread] == Empty
      modifies this
      ensures enqueue == old(enqueue)
      ensures got ==> |running| == |old(running)| && running[thread].Holds? && (step.TakeOwn? || step.TakeShared?)
                      && Step(old(View()), step, View(), maxRecycles)
      ensures old(recycled)[thread] != [] ==> got && step == TakeOwn(thread)
      ensures !got ==> View() == old(View()) && old(recycled)[thread] == []
    {
      step := TakeOwn(thread);
      if recycled[thread] != [] {
        running := running[thread := Holds(recycled[thread][0])];
        recycled := recycled[thread := recycled[thread][1..]];
        return true, step;
      }
      var index: int := *;
      if index < 0 || index >= |shared| {
        return false, step;
      }
      step := TakeShared(thread, index);
      running := running[thread := Holds(shared[index])];
      shared := shared[..index] + shared[index + 1..];
      return true, step;
    }

    /** The callback has returned. */
    method Finish(thread: nat)
      requires Shape(View()) && thread < |running| && running[thread].Holds?
      modifies this
      ensures enqueue == old(enqueue) && Step(old(View()), Label.Finish(thread), View(), maxRecycles)
    {
      done := done + multiset{running[thread].task};
      running := running[thread := Empty];
    }

    /** The end of a worker: it leaves its loop, and its leftovers go back to the shared queue in order. */
    method Leave(thread: nat)
      requires Inv(View(), maxRecycles) && thread < |recycled| && running[thread] == Empty
      modifies this
      ensures enqueue == old(enqueue) && Inv(View(), maxRecycles)
      ensures shared == old(shared) + old(recycled)[thread]
      ensures recycled == old(recycled)[thread := []] && exiting == old(exiting)[thread := true]
      ensures running == old(running) && done == old(done) && next == old(next)
    {
      hide Accounted, Bounded;
      ghost var before := View();
      exiting := exiting[thread := true];
      StepKeepsInv(before, Stop(thread), View(), maxRecycles);
      assert recycled == old(recycled)[thread := recycled[thread]];
      while recycled[thread] != []
        invariant Inv(View(), maxRecycles) && enqueue == old(enqueue) && thread < |recycled| && exiting[thread]
        invariant shared + recycled[thread] == old(shared) + old(recycled)[thread]
        invariant recycled == old(recycled)[thread := recycled[thread]] && exiting == old(exiting)[thread := true]
        invariant running == old(running) && done == old(done) && next == old(next)
        decreases |recycled[thread]|
      {
        ghost var s := View();
        var task, rest := recycled[thread][0], recycled[thread][1..];
        assert shared + recycled[thread] == (shared + [task]) + rest;
        shared := shared + [task];
        recycled := recycled[thread := rest];
        StepKeepsInv(s, Drain(thread), View(), maxRecycles);
      }
    }
  }
}
