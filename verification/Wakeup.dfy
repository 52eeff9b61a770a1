/**
 Suspending a coroutine through `deactivate(routine, after_suspend)`: the call
 that publishes the waker runs only after the routine has been marked suspended
 and its stack has been left. One routine, its own thread, and any other thread
 that may fire the waker at any moment once it is published.
 */
module Wakeup {
  import opened Coroutines

  /** Where the routine's own thread stands. */
  datatype Place =
    | Loop          // in the dispatch loop
    | Running       // inside the routine's slice
    | DeferSet      // `defer` stored, not yet suspended
    | Marked        // state stored as suspended, still on the routine's stack
    | Left          // back on the master stack
    | Deferred      // the deferred call has published the waker

  datatype State = State(place: Place, state: Execution, defer: bool, published: bool, fired: bool)

  datatype Label =
    | Execute | Skip | Yield | Finish
    | StoreDefer | StoreSuspended | SwitchOut | RunDefer | ClearDefer
    | Fire

  /** What firing the waker does: `activate`. */
  function Activated(e: Execution): Execution
  {
    if e == Suspended then Resumable else e
  }

  ghost predicate Step(s: State, l: Label, s': State)
  {
    match l
    case Execute =>
      s.place == Loop && (s.state == Active || s.state == Resumable)
      && s' == State(Running, Active, s.defer, false, false)
    case Skip => s.place == Loop && s.state == Suspended && s' == s
    case Yield => s.place == Running && s' == s.(place := Loop)
    case Finish => s.place == Running && s' == s.(place := Loop, state := Finished, defer := false)
    case StoreDefer => s.place == Running && s' == s.(place := DeferSet, defer := true)
    case StoreSuspended =>
      s.place == DeferSet && s' == (if s.state == Active then s.(place := Marked, state := Suspended)
        else s.(place := Running))
    case SwitchOut => s.place == Marked && s' == s.(place := Left)
    case RunDefer => s.place == Left && s.defer && s' == s.(place := Deferred, published := true)
    case ClearDefer => s.place == Deferred && s' == s.(place := Loop, defer := false)
    case Fire => s.published && !s.fired && s' == s.(fired := true, state := Activated(s.state))
  }

  ghost predicate Inv(s: State)
  {
    match s.place
    case Running => s.state == Active && !s.published && !s.fired && !s.defer
    case DeferSet => s.state == Active && !s.published && !s.fired && s.defer
    case Marked => s.state == Suspended && !s.published && !s.fired && s.defer
    case Left => s.state == Suspended && !s.published && !s.fired && s.defer
    case Deferred => s.published && s.state == (if s.fired then Resumable else Suspended)
    case Loop =>
      && !s.defer
      && (s.published ==> s.state == (if s.fired then Resumable else Suspended))
      && (!s.published ==> !s.fired && (s.state == Active || s.state == Finished))
  }

  lemma {:induction false} StepKeepsInv(s: State, l: Label, s': State)
    requires Inv(s) && Step(s, l, s')
    ensures Inv(s')
  {
  }

  /** A run from a routine that has just been popped. */
  ghost predicate Run(states: seq<State>, labels: seq<Label>)
  {
    && |states| == |labels| + 1
    && states[0] == State(Loop, Active, false, false, false)
    && forall i :: 0 <= i < |labels| ==> Step(states[i], labels[i], states[i + 1])
  }

  lemma {:induction false} RunKeepsInv(states: seq<State>, labels: seq<Label>, n: nat)
    requires Run(states, labels) && n < |states|
    ensures Inv(states[n])
  {
    if n > 0 {
      RunKeepsInv(states, labels, n - 1);
      assert Step(states[n - 1], labels[n - 1], states[n]);
      StepKeepsInv(states[n - 1], labels[n - 1], states[n]);
    }
  }

  /** In every interleaving the waker finds the routine suspended and makes it resumable. */
  lemma {:induction false} WakerFindsSuspended(states: seq<State>, labels: seq<Label>, n: nat)
    requires Run(states, labels) && n < |labels| && labels[n] == Fire
    ensures states[n].state == Suspended && states[n + 1].state == Resumable
  {
    RunKeepsInv(states, labels, n);
    assert Step(states[n], labels[n], states[n + 1]);
  }

  /**
   From the moment the waker has fired the routine stays resumable, through every
   step of every thread, until the dispatch loop executes it.
   */
  lemma {:induction false} WokenUntilExecuted(states: seq<State>, labels: seq<Label>, n: nat, m: nat)
    requires Run(states, labels) && n < m < |states| && labels[n] == Fire
    requires forall i :: n < i < m ==> labels[i] != Execute
    ensures states[m].state == Resumable && states[m].fired
    ensures states[m].place == Loop || states[m].place == Deferred
    decreases m
  {
    RunKeepsInv(states, labels, m - 1);
    assert Step(states[m - 1], labels[m - 1], states[m]);
    RunKeepsInv(states, labels, m);
    if m > n + 1 {
      WokenUntilExecuted(states, labels, n, m - 1);
    }
  }

  /** So whenever the loop looks at it, it runs: the loop never has to skip a routine whose waker has fired. */
  lemma {:induction false} NoLostWakeup(states: seq<State>, labels: seq<Label>, n: nat, m: nat)
    requires Run(states, labels) && n < m < |labels| && labels[n] == Fire
    requires forall i :: n < i < m ==> labels[i] != Execute
    ensures labels[m] != Skip
    ensures states[m].place == Loop ==> Step(states[m], Execute, State(Running, Active, false, false, false))
  {
    WokenUntilExecuted(states, labels, n, m);
    RunKeepsInv(states, labels, m);
    assert Step(states[m], labels[m], states[m + 1]);
  }

  /** The routine of the protocol is `routine` in the thread's state. */
  ghost predicate Mirrors(c: Costate, routine: nat, s: State)
    reads c
  {
    routine in c.used && routine in c.table && c.table[routine].state == s.state && c.table[routine].defer == s.defer
  }

  /**
   The next dispatch runs it: after any interleaving in which the waker has fired and the
   routine has not been executed since, a dispatch that begins then gives it a slice.
   */
  method NextDispatchRuns(
    c: Costate, routine: nat, ghost states: seq<State>, ghost labels: seq<Label>, ghost n: nat, ghost m: nat)
    returns (more: bool)
    requires Run(states, labels) && n < m < |states| && labels[n] == Fire
    requires forall i :: n < i < m ==> labels[i] != Execute
    requires c.Quiet() && states[m].place == Loop && Mirrors(c, routine, states[m])
    modifies c
    ensures more && old(c.history) <= c.history && RanSince(c.history, |old(c.history)|, routine)
    ensures c.Quiet() && c.used + c.cached == old(c.used + c.cached)
  {
    WokenUntilExecuted(states, labels, n, m);
    more := c.Dispatch();
  }

  // ---------------------------------------------------------------------
  // The protocol goes on
  // ---------------------------------------------------------------------

  /** In every state of every run the routine's own thread has a step to take, unless the routine has finished. */
  lemma {:induction false} NeverStuck(states: seq<State>, labels: seq<Label>, n: nat) returns (l: Label, s': State)
    requires Run(states, labels) && n < |states| && states[n].state != Finished
    ensures Step(states[n], l, s') && l != Fire
  {
    RunKeepsInv(states, labels, n);
    var s := states[n];
    match s.place
    case Loop =>
      if s.state == Suspended {
        l, s' := Skip, s;
      } else {
        l, s' := Execute, State(Running, Active, s.defer, false, false);
      }
    case Running => l, s' := Yield, s.(place := Loop);
    case DeferSet => l, s' := StoreSuspended, s.(place := Marked, state := Suspended);
    case Marked => l, s' := SwitchOut, s.(place := Left);
    case Left => l, s' := RunDefer, s.(place := Deferred, published := true);
    case Deferred => l, s' := ClearDefer, s.(place := Loop, defer := false);
  }

  /** After every suspension the deferred call publishes the waker, and it can fire from then on. */
  lemma {:induction false} WakerCanFire(states: seq<State>, labels: seq<Label>, n: nat)
    requires Run(states, labels) && n < |labels| && labels[n] == RunDefer
    ensures states[n].place == Left && states[n].state == Suspended
    ensures Step(states[n + 1], Fire, states[n + 1].(fired := true, state := Resumable))
  {
    RunKeepsInv(states, labels, n);
    assert Step(states[n], labels[n], states[n + 1]);
  }

  /**
   What `execute` does to a routine is a run of the protocol from the loop back to the loop, with the
   state and the deferred call that its outcome means; the waker may fire as soon as it is published.
   */
  lemma {:induction false} TurnIsRun(
    s: State, outcome: Outcome, wakes: bool)
    returns (states: seq<State>, labels: seq<Label>)
    requires Inv(s) && s.place == Loop && (s.state == Active || s.state == Resumable)
    requires outcome != Deactivates(false) && (wakes ==> outcome == Deactivates(true))
    ensures |states| == |labels| + 1 && states[0] == s && labels != [] && labels[0] == Execute
    ensures forall i :: 0 <= i < |labels| ==> Step(states[i], labels[i], states[i + 1])
    ensures var end := states[|labels|];
            end.place == Loop && !end.defer && (RunDefer in labels <==> outcome == Deactivates(true))
            && end.state == match outcome
                            case Returns => Finished
                            case Yields => Active
                            case Deactivates(_) => if wakes then Resumable else Suspended
  {
    var run := State(Running, Active, false, false, false);
    match outcome
    case Returns =>
      states, labels := [s, run, State(Loop, Finished, false, false, false)], [Execute, Finish];
    case Yields =>
      states, labels := [s, run, State(Loop, Active, false, false, false)], [Execute, Yield];
    case Deactivates(_) =>
      var deferred := State(Deferred, Suspended, true, true, false);
      states := [s, run, State(DeferSet, Active, true, false, false), State(Marked, Suspended, true, false, false),
                 State(Left, Suspended, true, false, false), deferred];
      labels := [Execute, StoreDefer, StoreSuspended, SwitchOut, RunDefer];
      assert labels[4] == RunDefer;
      if wakes {
        states := states + [deferred.(fired := true, state := Resumable), State(Loop, Resumable, false, true, true)];
        labels := labels + [Fire, ClearDefer];
      } else {
        states := states + [State(Loop, Suspended, false, true, false)];
        labels := labels + [ClearDefer];
      }
  }

  // ---------------------------------------------------------------------
  // Why the waker must not be published earlier
  // ---------------------------------------------------------------------

  /** The same protocol, except that the running routine may hand its waker out before it suspends. */
  ghost predicate EagerStep(s: State, l: Label, s': State)
  {
    Step(s, l, s') || (s.place == Running && l == RunDefer && s' == s.(published := true))
  }

  /** Then a wake-up can be lost: a run after which the waker has fired and the routine is suspended for good. */
  lemma {:induction false} EagerPublishingLosesWakeups() returns (states: seq<State>, labels: seq<Label>)
    ensures |states| == |labels| + 1 && |states| >= 1
    ensures states[0] == State(Loop, Active, false, false, false)
    ensures forall i :: 0 <= i < |labels| ==> EagerStep(states[i], labels[i], states[i + 1])
    ensures states[|labels|].place == Loop && states[|labels|].state == Suspended && states[|labels|].fired
    ensures forall l, s' :: EagerStep(states[|labels|], l, s') ==> s' == states[|labels|]
  {
    labels := [Execute, RunDefer, Fire, StoreDefer, StoreSuspended, SwitchOut, RunDefer, ClearDefer];
    states := [State(Loop, Active, false, false, false),
               State(Running, Active, false, false, false),
               State(Running, Active, false, true, false),
               State(Running, Active, false, true, true),
               State(DeferSet, Active, true, true, true),
               State(Marked, Suspended, true, true, true),
               State(Left, Suspended, true, true, true),
               State(Deferred, Suspended, true, true, true),
               State(Loop, Suspended, false, true, true)];
  }
}
