/**
 The timer queue of `schedule`: an ordered map from expiry (microseconds) to
 timer, re-armed by in-flight tasks that other threads run. The protocol is a
 step system; the class beside it performs its steps.
 */
module Timers {
  import opened Words

  /** `period` is the duration; an alive timer is an interval and re-arms itself. */
  datatype Timer = Timer(id: nat, period: nat, alive: bool)

  /** A timer leaving the queue because the clock read `at`; it had been asked for at `due`. */
  datatype Firing = Firing(id: nat, at: nat, due: nat)

  datatype State = State(
    queue: map<nat, Timer>,
    inflight: multiset<Timer>,
    generation: nat,
    due: map<nat, nat>,
    firings: seq<Firing>)

  const INVALID_TASK_ID: nat := 0

  // ---------------------------------------------------------------------
  // Key probing
  // ---------------------------------------------------------------------

  ghost function KeysFrom(queue: map<nat, Timer>, clock: nat): set<nat>
  {
    set k | k in queue && k >= clock
  }

  lemma {:induction false} KeysFromShrinks(queue: map<nat, Timer>, clock: nat)
    requires clock in queue
    ensures |KeysFrom(queue, clock + 1)| + 1 == |KeysFrom(queue, clock)|
  {
    assert KeysFrom(queue, clock) == KeysFrom(queue, clock + 1) + {clock};
  }

  lemma {:induction false} SubsetSize<T>(a: set<T>, b: set<T>)
    requires a <= b
    ensures |a| <= |b|
  {
    assert b == a + (b - a);
  }

  /** The first free key at or after the wanted expiry: never taken, at most one step per queued timer late. */
  ghost function Probe(queue: map<nat, Timer>, clock: nat): (key: nat)
    ensures key !in queue
    ensures clock <= key <= clock + |KeysFrom(queue, clock)|
    ensures forall k :: clock <= k < key ==> k in queue
    decreases |KeysFrom(queue, clock)|
  {
    if clock in queue then
      KeysFromShrinks(queue, clock);
      Probe(queue, clock + 1)
    else clock
  }

  lemma {:induction false} ProbeLateness(queue: map<nat, Timer>, clock: nat)
    ensures clock <= Probe(queue, clock) <= clock + |queue|
  {
    SubsetSize(KeysFrom(queue, clock), queue.Keys);
  }

  // ---------------------------------------------------------------------
  // Steps
  // ---------------------------------------------------------------------

  /** `ordered_map::emplace`: an occupied key keeps its timer and the new one is dropped. */
  function Emplace(queue: map<nat, Timer>, key: nat, timer: Timer): map<nat, Timer>
  {
    if key in queue then queue else queue[key := timer]
  }

  ghost function Arm(s: State, timer: Timer, expires: nat): State
  {
    s.(queue := Emplace(s.queue, Probe(s.queue, expires), timer), due := s.due[timer.id := expires])
  }

  ghost predicate IsFirst(queue: map<nat, Timer>, key: nat)
  {
    key in queue && forall k :: k in queue ==> key <= k
  }

  datatype Label =
    | SetTimer(period: nat, clock: nat, alive: bool)
    | ClearTimeout(id: nat)
    | Fire(key: nat, clock: nat, rearms: bool)
    | Rearm(timer: Timer, clock: nat)
    | TriggerTimers(clock: nat, order: seq<nat>)

  /** The timer left the queue: an interval that is to re-arm goes in flight. */
  ghost function Take(s: State, key: nat, clock: nat, rearms: bool): State
    requires key in s.queue && s.queue[key].id in s.due
  {
    var t := s.queue[key];
    s.(queue := s.queue - {key},
       inflight := if rearms then s.inflight + multiset{t} else s.inflight,
       firings := s.firings + [Firing(t.id, clock, s.due[t.id])])
  }

  /** When a timer was last asked for. */
  ghost function DueOf(due: map<nat, nat>, id: nat): nat
  {
    if id in due then due[id] else 0
  }

  /** The keys of the ordered map, as it is iterated. */
  ghost predicate IsIteration(order: seq<nat>, queue: map<nat, Timer>)
  {
    && (forall i :: 0 <= i < |order| ==> order[i] in queue)
    && (forall k :: k in queue ==> k in order)
    && (forall i, j :: 0 <= i < j < |order| ==> order[i] < order[j])
  }

  /** One firing for each key in turn. */
  ghost function FiringsOf(order: seq<nat>, s: State, clock: nat): (r: seq<Firing>)
    requires forall i :: 0 <= i < |order| ==> order[i] in s.queue
    ensures |r| == |order|
    ensures forall i :: 0 <= i < |order| ==>
            r[i] == Firing(s.queue[order[i]].id, clock, DueOf(s.due, s.queue[order[i]].id))
  {
    if order == [] then []
    else
      var t := s.queue[order[|order| - 1]];
      FiringsOf(order[..|order| - 1], s, clock) + [Firing(t.id, clock, DueOf(s.due, t.id))]
  }

  ghost predicate Step(s: State, l: Label, s': State)
  {
    match l
    case SetTimer(period, clock, alive) =>
      s' == Arm(s.(generation := s.generation + 1), Timer(s.generation + 1, period, alive), clock + period)
    case ClearTimeout(id) =>
      if id != INVALID_TASK_ID && exists k :: k in s.queue && s.queue[k].id == id then
        exists k :: k in s.queue && s.queue[k].id == id && s' == s.(queue := s.queue - {k})
      else s' == s
    case Fire(key, clock, rearms) =>
      && IsFirst(s.queue, key) && key <= clock && (rearms ==> s.queue[key].alive)
      && s.queue[key].id in s.due && s' == Take(s, key, clock, rearms)
    case Rearm(timer, clock) =>
      timer in s.inflight && s' == Arm(s.(inflight := s.inflight - multiset{timer}), timer, clock + timer.period)
    case TriggerTimers(clock, order) =>
      && IsIteration(order, s.queue)
      && s' == s.(queue := map[], firings := s.firings + FiringsOf(order, s, clock))
  }

  ghost predicate Queued(s: State, id: nat)
  {
    exists k :: k in s.queue && s.queue[k].id == id
  }

  ghost predicate InFlight(s: State, id: nat)
  {
    exists t :: t in s.inflight && t.id == id
  }

  /** Every queued timer once, under a key at or after the time it was asked for. */
  ghost predicate QueueInv(queue: map<nat, Timer>, generation: nat, due: map<nat, nat>)
  {
    && (forall j, k :: j in queue && k in queue && queue[j].id == queue[k].id ==> j == k)
    && (forall k :: k in queue ==> 1 <= queue[k].id <= generation)
    && (forall k :: k in queue ==> queue[k].id in due && due[queue[k].id] <= k)
  }

  /** Every interval in flight once. */
  ghost predicate FlightInv(inflight: multiset<Timer>, generation: nat)
  {
    && (forall t :: t in inflight ==> inflight[t] == 1 && t.alive && 1 <= t.id <= generation)
    && (forall t, u :: t in inflight && u in inflight && t.id == u.id ==> t == u)
  }

  ghost predicate Apart(queue: map<nat, Timer>, inflight: multiset<Timer>)
  {
    forall k, t :: k in queue && t in inflight ==> queue[k].id != t.id
  }

  ghost predicate NeverEarly(firings: seq<Firing>)
  {
    forall i :: 0 <= i < |firings| ==> firings[i].due <= firings[i].at
  }

  /** At most one arming of each timer anywhere, and nothing queued under a key before it is due. */
  ghost predicate Inv(s: State)
  {
    && QueueInv(s.queue, s.generation, s.due)
    && FlightInv(s.inflight, s.generation)
    && Apart(s.queue, s.inflight)
  }

  ghost predicate Init(s: State)
  {
    s == State(map[], multiset{}, 0, map[], [])
  }

  lemma {:induction false} QueueGains(
    queue: map<nat, Timer>, generation: nat, due: map<nat, nat>, key: nat, timer: Timer, expires: nat)
    requires QueueInv(queue, generation, due) && 1 <= timer.id <= generation && key !in queue && expires <= key
    requires forall k :: k in queue ==> queue[k].id != timer.id
    ensures QueueInv(queue[key := timer], generation, due[timer.id := expires])
  {
    var queue' := queue[key := timer];
    assert forall k :: k in queue' ==> k == key || (k in queue && queue'[k] == queue[k]);
  }

  lemma {:induction false} GrowsByOne(queue: map<nat, Timer>, key: nat, timer: Timer)
    requires key !in queue
    ensures |queue[key := timer]| == |queue| + 1
  {
    assert queue[key := timer].Keys == queue.Keys + {key};
  }

  /** Arming a timer that is nowhere keeps the invariant and drops nothing. */
  lemma {:induction false} ArmKeepsInv(s: State, timer: Timer, expires: nat)
    requires Inv(s) && 1 <= timer.id <= s.generation && !Queued(s, timer.id) && !InFlight(s, timer.id)
    ensures Inv(Arm(s, timer, expires))
    ensures Arm(s, timer, expires).queue == s.queue[Probe(s.queue, expires) := timer]
    ensures |Arm(s, timer, expires).queue| == |s.queue| + 1
    ensures expires <= Probe(s.queue, expires) <= expires + |s.queue|
  {
    hide Probe, FlightInv, QueueInv;
    var key := Probe(s.queue, expires);
    ProbeLateness(s.queue, expires);
    QueueGains(s.queue, s.generation, s.due, key, timer, expires);
    GrowsByOne(s.queue, key, timer);
    assert Apart(s.queue[key := timer], s.inflight);
  }

  lemma {:induction false} StepKeepsInv(s: State, l: Label, s': State)
    requires Inv(s) && Step(s, l, s')
    ensures Inv(s')
  {
    hide Probe, Arm, Inv, Take, IsFirst, FiringsOf, IsIteration;
    match l
    case SetTimer(period, clock, alive) =>
      SetKeepsInv(s, period, clock, alive);
    case ClearTimeout(id) =>
      ClearKeepsInv(s, id, s');
    case Fire(key, clock, rearms) =>
      FirstIsQueued(s.queue, key);
      TakeKeepsInv(s, key, clock, rearms);
    case Rearm(timer, clock) =>
      RearmKeepsInv(s, timer, clock);
    case TriggerTimers(clock, order) =>
      TriggerKeepsInv(s, s'.firings);
  }

  lemma {:induction false} FirstIsQueued(queue: map<nat, Timer>, key: nat)
    requires IsFirst(queue, key)
    ensures key in queue
  {
  }

  lemma {:induction false} TriggerKeepsInv(s: State, firings: seq<Firing>)
    requires Inv(s)
    ensures Inv(s.(queue := map[], firings := firings))
  {
  }

  lemma {:induction false} FreshInQueue(queue: map<nat, Timer>, generation: nat, due: map<nat, nat>)
    requires QueueInv(queue, generation, due)
    ensures QueueInv(queue, generation + 1, due)
    ensures forall k :: k in queue ==> queue[k].id != generation + 1
  {
  }

  lemma {:induction false} FreshInFlight(inflight: multiset<Timer>, generation: nat)
    requires FlightInv(inflight, generation)
    ensures FlightInv(inflight, generation + 1)
    ensures forall t :: t in inflight ==> t.id != generation + 1
  {
  }

  lemma {:induction false} SetKeepsInv(s: State, period: nat, clock: nat, alive: bool)
    requires Inv(s)
    ensures var s0 := s.(generation := s.generation + 1);
            var t := Timer(s.generation + 1, period, alive);
            Inv(s0) && !Queued(s0, t.id) && !InFlight(s0, t.id) && Inv(Arm(s0, t, clock + period))
  {
    hide Probe, Arm, Apart, QueueInv, FlightInv;
    var s0 := s.(generation := s.generation + 1);
    FreshInQueue(s.queue, s.generation, s.due);
    FreshInFlight(s.inflight, s.generation);
    ArmKeepsInv(s0, Timer(s.generation + 1, period, alive), clock + period);
  }

  lemma {:induction false} ClearKeepsInv(s: State, id: nat, s': State)
    requires Inv(s) && Step(s, ClearTimeout(id), s')
    ensures Inv(s')
    ensures s'.queue.Keys <= s.queue.Keys && s'.inflight == s.inflight && s'.generation == s.generation
    ensures id != INVALID_TASK_ID ==> !Queued(s', id)
    ensures forall k :: k in s'.queue ==> s'.queue[k] == s.queue[k]
  {
    hide FlightInv, Probe, Arm, Take, FiringsOf;
    if s' != s {
      var k :| k in s.queue && s.queue[k].id == id && s' == s.(queue := s.queue - {k});
    }
  }

  lemma {:induction false} RemoveOne(inflight: multiset<Timer>, timer: Timer, generation: nat)
    requires FlightInv(inflight, generation) && timer in inflight
    ensures var rest := inflight - multiset{timer};
            FlightInv(rest, generation) && forall t :: t in rest ==> t in inflight && t.id != timer.id
  {
    var rest := inflight - multiset{timer};
    assert timer !in rest;
    assert forall t :: t in rest ==> t in inflight && rest[t] == inflight[t];
  }

  lemma {:induction false} RearmKeepsInv(s: State, timer: Timer, clock: nat)
    requires Inv(s) && timer in s.inflight
    ensures var s0 := s.(inflight := s.inflight - multiset{timer});
            Inv(s0) && !Queued(s0, timer.id) && !InFlight(s0, timer.id) && 1 <= timer.id <= s.generation
            && Inv(Arm(s0, timer, clock + timer.period))
  {
    hide Probe, Arm, QueueInv;
    RemoveOne(s.inflight, timer, s.generation);
    var s0 := s.(inflight := s.inflight - multiset{timer});
    assert Apart(s0.queue, s0.inflight);
    ArmKeepsInv(s0, timer, clock + timer.period);
  }

  lemma {:induction false} AddOne(inflight: multiset<Timer>, timer: Timer, generation: nat)
    requires FlightInv(inflight, generation) && timer.alive && 1 <= timer.id <= generation
    requires forall t :: t in inflight ==> t.id != timer.id
    ensures FlightInv(inflight + multiset{timer}, generation)
    ensures forall t :: t in inflight + multiset{timer} ==> t in inflight || t == timer
  {
    assert timer !in inflight;
    var all := inflight + multiset{timer};
    assert forall t :: t in all ==>
             (t in inflight && t != timer && all[t] == inflight[t]) || (t == timer && all[t] == 1);
  }

  lemma {:induction false} TakeKeepsInv(s: State, key: nat, clock: nat, rearms: bool)
    requires Inv(s) && key in s.queue && key <= clock && (rearms ==> s.queue[key].alive)
    ensures Inv(Take(s, key, clock, rearms))
  {
    hide FlightInv;
    var s' := Take(s, key, clock, rearms);
    var t := s.queue[key];
    if rearms {
      AddOne(s.inflight, t, s.generation);
    }
    assert forall k :: k in s'.queue ==> k in s.queue && s'.queue[k] == s.queue[k] && k != key;
    assert Apart(s'.queue, s'.inflight);
  }

  // ---------------------------------------------------------------------
  // Runs
  // ---------------------------------------------------------------------

  ghost predicate Run(states: seq<State>, labels: seq<Label>)
  {
    && |states| == |labels| + 1
    && Init(states[0])
    && forall i :: 0 <= i < |labels| ==> Step(states[i], labels[i], states[i + 1])
  }

  lemma {:induction false} RunKeepsInv(states: seq<State>, labels: seq<Label>, n: nat)
    requires Run(states, labels) && n < |states|
    ensures Inv(states[n])
  {
    if n > 0 {
      RunKeepsInv(states, labels, n - 1);
      assert Step(states[n - 1], labels[n - 1], states[n]);
      StepKeepsInv(states[n - 1], labels[n - 1], states[n]);
    }
  }

  /** In every run a timer is armed at most once: queued once, or in one re-arm task, never both. */
  lemma {:induction false} OneArming(states: seq<State>, labels: seq<Label>, n: nat, id: nat)
    requires Run(states, labels) && n < |states|
    ensures !(Queued(states[n], id) && InFlight(states[n], id))
    ensures forall j, k :: j in states[n].queue && k in states[n].queue ==>
              states[n].queue[j].id == states[n].queue[k].id ==> j == k
    ensures forall t, u :: t in states[n].inflight && u in states[n].inflight && t.id == u.id ==>
            t == u && states[n].inflight[t] == 1
  {
    RunKeepsInv(states, labels, n);
  }

  // ---------------------------------------------------------------------
  // Early firings
  // ---------------------------------------------------------------------

  /** Every queued timer is due. */
  ghost predicate AllDue(s: State, clock: nat)
  {
    forall k :: k in s.queue ==> DueOf(s.due, s.queue[k].id) <= clock
  }

  /** Only `trigger_timers` can be early, and it is unless every queued timer is due. */
  ghost predicate OnTime(s: State, l: Label)
  {
    l.TriggerTimers? ==> AllDue(s, l.clock)
  }

  lemma {:induction false} TriggerEarlyExactlyWhen(s: State, clock: nat, order: seq<nat>)
    requires IsIteration(order, s.queue)
    ensures NeverEarly(FiringsOf(order, s, clock)) <==> AllDue(s, clock)
  {
    var r := FiringsOf(order, s, clock);
    hide FiringsOf;
    if NeverEarly(r) {
      forall k | k in s.queue
        ensures DueOf(s.due, s.queue[k].id) <= clock
      {
        var i :| 0 <= i < |order| && order[i] == k;
        assert r[i].due <= r[i].at;
      }
    }
  }

  lemma {:induction false} NeverEarlyJoined(a: seq<Firing>, b: seq<Firing>)
    ensures NeverEarly(a + b) <==> NeverEarly(a) && NeverEarly(b)
  {
    if NeverEarly(a + b) {
      forall i | 0 <= i < |a|
        ensures a[i].due <= a[i].at
      {
        assert (a + b)[i] == a[i];
      }
      forall i | 0 <= i < |b|
        ensures b[i].due <= b[i].at
      {
        assert (a + b)[|a| + i] == b[i];
      }
    }
  }

  /** What a step adds to the firings is not early exactly when the step is on time. */
  lemma {:induction false} StepEarlyExactlyWhen(s: State, l: Label, s': State)
    requires Inv(s) && Step(s, l, s')
    ensures NeverEarly(s'.firings) <==> NeverEarly(s.firings) && OnTime(s, l)
  {
    hide Probe, FiringsOf, NeverEarly, FlightInv, Apart, Emplace, AllDue;
    match l
    case SetTimer(_, _, _) =>
    case ClearTimeout(_) =>
    case Rearm(_, _) =>
    case Fire(key, clock, rearms) =>
      var f := Firing(s.queue[key].id, clock, s.due[s.queue[key].id]);
      NeverEarlyJoined(s.firings, [f]);
      OneFiring(f);
    case TriggerTimers(clock, order) =>
      NeverEarlyJoined(s.firings, FiringsOf(order, s, clock));
      TriggerEarlyExactlyWhen(s, clock, order);
  }

  lemma {:induction false} OneFiring(f: Firing)
    ensures NeverEarly([f]) <==> f.due <= f.at
  {
    assert [f][0] == f;
  }

  /**
   A run has no early firing if and only if every `trigger_timers` in it came when all
   the timers then queued were due: the timer thread itself is never early.
   */
  lemma {:induction false} NoFiringEarlyExactlyWhen(states: seq<State>, labels: seq<Label>, n: nat)
    requires Run(states, labels) && n < |states|
    ensures NeverEarly(states[n].firings) <==> forall i :: 0 <= i < n ==> OnTime(states[i], labels[i])
  {
    hide Step, OnTime, Inv;
    if n > 0 {
      NoFiringEarlyExactlyWhen(states, labels, n - 1);
      RunKeepsInv(states, labels, n - 1);
      assert Step(states[n - 1], labels[n - 1], states[n]);
      StepEarlyExactlyWhen(states[n - 1], labels[n - 1], states[n]);
    } else {
      StartsEmpty(states[0]);
    }
  }

  lemma {:induction false} StartsEmpty(s: State)
    requires Init(s)
    ensures NeverEarly(s.firings)
  {
  }

  /** The failing runs: any timer, triggered at any clock before it is due. */
  lemma {:induction false} TriggerFiresEarly(
    period: nat, clock: nat, alive: bool, now: nat)
    returns (states: seq<State>, labels: seq<Label>)
    requires now < clock + period
    ensures Run(states, labels) && labels == [SetTimer(period, clock, alive), TriggerTimers(now, [clock + period])]
    ensures states[2].firings == [Firing(1, now, clock + period)] && !NeverEarly(states[2].firings)
  {
    hide Probe, Arm, FiringsOf, IsIteration, Step;
    var s0 := State(map[], multiset{}, 0, map[], []);
    var expires, f := clock + period, Firing(1, now, clock + period);
    var s1 := State(map[expires := Timer(1, period, alive)], multiset{}, 1, map[1 := expires], []);
    var s2 := State(map[], multiset{}, 1, map[1 := expires], [f]);
    FirstArmed(period, clock, alive);
    OnlyOneTriggered(s1, expires, Timer(1, period, alive), now);
    states, labels := [s0, s1, s2], [SetTimer(period, clock, alive), TriggerTimers(now, [expires])];
    OneFiring(f);
  }

  lemma {:induction false} FirstArmed(period: nat, clock: nat, alive: bool)
    ensures var timer, expires := Timer(1, period, alive), clock + period;
            Step(State(map[], multiset{}, 0, map[], []), SetTimer(period, clock, alive),
                 State(map[expires := timer], multiset{}, 1, map[1 := expires], []))
  {
    assert Probe(map[], clock + period) == clock + period;
    hide Probe;
  }

  lemma {:induction false} OnlyOneTriggered(s: State, key: nat, timer: Timer, now: nat)
    requires s.queue == map[key := timer] && s.firings == []
    ensures var f := Firing(timer.id, now, DueOf(s.due, timer.id));
            Step(s, TriggerTimers(now, [key]), s.(queue := map[], firings := [f]))
  {
    var r := FiringsOf([key], s, now);
    hide FiringsOf;
    assert r == [Firing(timer.id, now, DueOf(s.due, timer.id))] && [] + r == r;
    assert [key][0] == key;
  }

  ghost predicate Landed(queue: map<nat, Timer>, id: nat, earliest: nat, latest: nat)
  {
    exists k :: k in queue && queue[k].id == id && earliest <= k <= latest
  }

  /** What arming a timer that is nowhere does to the queue. */
  lemma {:induction false} ArmLands(s: State, timer: Timer, expires: nat)
    requires Inv(s) && 1 <= timer.id <= s.generation && !Queued(s, timer.id) && !InFlight(s, timer.id)
    ensures |Arm(s, timer, expires).queue| == |s.queue| + 1
    ensures Landed(Arm(s, timer, expires).queue, timer.id, expires, expires + |s.queue|)
  {
    hide Probe, Arm, Inv, Queued, InFlight;
    ArmKeepsInv(s, timer, expires);
    var k := Probe(s.queue, expires);
    var queue := s.queue[k := timer];
    assert k in queue && queue[k].id == timer.id;
  }

  /** No insertion is dropped, and none is later than one microsecond per timer queued at the time. */
  lemma {:induction false} InsertionsLand(states: seq<State>, labels: seq<Label>, n: nat)
    requires Run(states, labels) && n < |labels| && (labels[n].SetTimer? || labels[n].Rearm?)
    ensures |states[n + 1].queue| == |states[n].queue| + 1
    ensures var id := if labels[n].SetTimer? then states[n].generation + 1 else labels[n].timer.id;
            var wanted := labels[n].clock + (if labels[n].SetTimer? then labels[n].period else labels[n].timer.period);
            Landed(states[n + 1].queue, id, wanted, wanted + |states[n].queue|)
  {
    hide Probe, Arm, Inv, Queued, InFlight, Landed;
    RunKeepsInv(states, labels, n);
    var s, l, s' := states[n], labels[n], states[n + 1];
    assert Step(s, l, s');
    match l
    case SetTimer(period, clock, alive) =>
      SetKeepsInv(s, period, clock, alive);
      ArmLands(s.(generation := s.generation + 1), Timer(s.generation + 1, period, alive), clock + period);
    case Rearm(timer, clock) =>
      RearmKeepsInv(s, timer, clock);
      ArmLands(s.(inflight := s.inflight - multiset{timer}), timer, clock + timer.period);
  }

  ghost predicate Gone(s: State, id: nat)
  {
    id <= s.generation && !Queued(s, id) && !InFlight(s, id)
  }

  /** Armed timers other than `id` do not bring it back. */
  lemma {:induction false} ArmKeepsGone(s: State, timer: Timer, expires: nat, id: nat)
    requires Gone(s, id) && timer.id != id
    ensures Gone(Arm(s, timer, expires), id)
  {
    hide Arm;
    ArmAdds(s, timer, expires);
  }

  lemma {:induction false} ClearKeepsGone(s: State, other: nat, s': State, id: nat)
    requires Inv(s) && Step(s, ClearTimeout(other), s') && Gone(s, id)
    ensures Gone(s', id)
  {
    hide Step, Inv;
    ClearKeepsInv(s, other, s');
  }

  lemma {:induction false} TakeKeepsGone(s: State, key: nat, clock: nat, rearms: bool, id: nat)
    requires key in s.queue && s.queue[key].id in s.due && Gone(s, id)
    ensures Gone(Take(s, key, clock, rearms), id)
  {
    hide Take;
    TakeMoves(s, key, clock, rearms);
  }

  lemma {:induction false} RearmKeepsGone(s: State, timer: Timer, clock: nat, id: nat)
    requires timer in s.inflight && Gone(s, id)
    ensures Gone(Arm(s.(inflight := s.inflight - multiset{timer}), timer, clock + timer.period), id)
  {
    var s0 := s.(inflight := s.inflight - multiset{timer});
    assert forall t :: t in s0.inflight ==> t in s.inflight;
    ArmKeepsGone(s0, timer, clock + timer.period, id);
  }

  /** A timer that is gone and whose number was already given out never comes back. */
  lemma {:induction false} GoneStaysGone(s: State, l: Label, s': State, id: nat)
    requires Inv(s) && Step(s, l, s') && Gone(s, id)
    ensures Gone(s', id)
  {
    hide Probe, Arm, Inv, Take, Emplace, Gone, IsFirst, FiringsOf, IsIteration;
    match l
    case SetTimer(period, clock, alive) =>
      NextStaysGone(s, id);
      ArmKeepsGone(s.(generation := s.generation + 1), Timer(s.generation + 1, period, alive), clock + period, id);
    case ClearTimeout(other) =>
      ClearKeepsGone(s, other, s', id);
    case Fire(key, clock, rearms) =>
      FirstIsQueued(s.queue, key);
      TakeKeepsGone(s, key, clock, rearms, id);
    case Rearm(timer, clock) =>
      RearmKeepsGone(s, timer, clock, id);
    case TriggerTimers(clock, order) =>
      EmptiedKeepsGone(s, s'.firings, id);
  }

  lemma {:induction false} NextStaysGone(s: State, id: nat)
    requires Gone(s, id)
    ensures Gone(s.(generation := s.generation + 1), id) && id != s.generation + 1
  {
  }

  lemma {:induction false} EmptiedKeepsGone(s: State, firings: seq<Firing>, id: nat)
    requires Gone(s, id)
    ensures Gone(s.(queue := map[], firings := firings), id)
  {
  }

  lemma {:induction false} TakeMoves(s: State, key: nat, clock: nat, rearms: bool)
    requires key in s.queue && s.queue[key].id in s.due
    ensures var s' := Take(s, key, clock, rearms);
            && s'.generation == s.generation
            && (forall k :: k in s'.queue ==> k in s.queue && s'.queue[k] == s.queue[k])
            && (forall t :: t in s'.inflight ==> t in s.inflight || t == s.queue[key])
  {
  }

  lemma {:induction false} ArmAdds(s: State, timer: Timer, expires: nat)
    ensures var s' := Arm(s, timer, expires);
            && s'.inflight == s.inflight && s'.generation == s.generation
            && forall k :: k in s'.queue ==> s'.queue[k] == timer || (k in s.queue && s'.queue[k] == s.queue[k])
  {
    hide Probe;
  }

  lemma {:induction false} GoneForever(states: seq<State>, labels: seq<Label>, n: nat, m: nat, id: nat)
    requires Run(states, labels) && n <= m < |states|
    requires Gone(states[n], id)
    ensures Gone(states[m], id)
    decreases m
  {
    hide Step, Inv, Gone;
    if n < m {
      GoneForever(states, labels, n, m - 1, id);
      RunKeepsInv(states, labels, m - 1);
      assert Step(states[m - 1], labels[m - 1], states[m]);
      GoneStaysGone(states[m - 1], labels[m - 1], states[m], id);
    }
  }

  /** Once `clear_timeout` has answered true, the timer is in no later queue and in no later task. */
  lemma {:induction false} ClearedForGood(states: seq<State>, labels: seq<Label>, n: nat, m: nat, id: nat)
    requires Run(states, labels) && n < m < |states|
    requires labels[n] == ClearTimeout(id) && id != INVALID_TASK_ID && Queued(states[n], id)
    ensures !Queued(states[m], id) && !InFlight(states[m], id)
  {
    hide Probe, Arm, Step, Take;
    RunKeepsInv(states, labels, n);
    assert Step(states[n], labels[n], states[n + 1]);
    ClearKeepsInv(states[n], id, states[n + 1]);
    GoneForever(states, labels, n + 1, m, id);
  }

  /**
   Clearing a number that was given out leaves its timer gone for good if and only if it is not an
   interval in flight: `clear_timeout` walks the queue alone.
   */
  lemma {:induction false} ClearedExactlyWhen(s: State, id: nat, s': State)
    requires Inv(s) && Step(s, ClearTimeout(id), s') && 1 <= id <= s.generation
    ensures Gone(s', id) <==> !InFlight(s, id)
  {
    hide Step, Inv;
    ClearKeepsInv(s, id, s');
  }

  /** In every run a clear that finds an interval in flight changes nothing, and its re-arming brings it back. */
  lemma {:induction false} ClearedInFlightReturns(
    states: seq<State>, labels: seq<Label>, n: nat, timer: Timer, clock: nat)
    requires Run(states, labels) && n < |labels| && labels[n] == ClearTimeout(timer.id) && timer in states[n].inflight
    ensures states[n + 1] == states[n] && Step(states[n], Rearm(timer, clock), Rearmed(states[n], timer, clock))
    ensures Queued(Rearmed(states[n], timer, clock), timer.id)
  {
    hide Probe, Arm, Inv, Queued, InFlight, Landed, Step;
    RunKeepsInv(states, labels, n);
    var s := states[n];
    assert Step(s, labels[n], states[n + 1]);
    ClearMisses(s, timer, states[n + 1]);
    RearmKeepsInv(s, timer, clock);
    ArmLands(s.(inflight := s.inflight - multiset{timer}), timer, clock + timer.period);
    RearmIsStep(s, timer, clock);
    LandedIsQueued(Rearmed(s, timer, clock), timer.id, clock + timer.period, clock + timer.period + |s.queue|);
  }

  lemma {:induction false} ClearMisses(s: State, timer: Timer, s': State)
    requires Inv(s) && Step(s, ClearTimeout(timer.id), s') && timer in s.inflight
    ensures s' == s
  {
    hide Probe, Arm, Take, FiringsOf, FlightInv, QueueInv;
  }

  lemma {:induction false} RearmIsStep(s: State, timer: Timer, clock: nat)
    requires timer in s.inflight
    ensures Step(s, Rearm(timer, clock), Rearmed(s, timer, clock))
  {
    hide Arm;
  }

  lemma {:induction false} LandedIsQueued(s: State, id: nat, earliest: nat, latest: nat)
    requires Landed(s.queue, id, earliest, latest)
    ensures Queued(s, id)
  {
  }

  ghost function Rearmed(s: State, timer: Timer, clock: nat): State
  {
    Arm(s.(inflight := s.inflight - multiset{timer}), timer, clock + timer.period)
  }

  /** A timer that fired without re-arming, as every one-shot does, never fires or queues again. */
  lemma {:induction false} OneShotFiresOnce(states: seq<State>, labels: seq<Label>, n: nat, m: nat)
    requires Run(states, labels) && n < m < |states| && labels[n].Fire? && !labels[n].rearms
    requires labels[n].key in states[n].queue
    ensures !Queued(states[m], states[n].queue[labels[n].key].id)
    ensures !InFlight(states[m], states[n].queue[labels[n].key].id)
  {
    hide Probe, Arm;
    RunKeepsInv(states, labels, n);
    assert Step(states[n], labels[n], states[n + 1]);
    GoneForever(states, labels, n + 1, m, states[n].queue[labels[n].key].id);
  }

  /** A timer that was queued when `trigger_timers` came, interval or not, never fires or queues again. */
  lemma {:induction false} TriggeredForGood(states: seq<State>, labels: seq<Label>, n: nat, m: nat, id: nat)
    requires Run(states, labels) && n < m < |states| && labels[n].TriggerTimers? && Queued(states[n], id)
    ensures !Queued(states[m], id) && !InFlight(states[m], id)
  {
    hide Probe, Arm, FiringsOf, IsIteration, Take;
    RunKeepsInv(states, labels, n);
    assert Step(states[n], labels[n], states[n + 1]);
    GoneForever(states, labels, n + 1, m, id);
  }

  // ---------------------------------------------------------------------
  // Every timer, wherever it is
  // ---------------------------------------------------------------------

  ghost function One(b: bool): nat
  {
    if b then 1 else 0
  }

  /** The step hands the timer's callback out: the timer thread when its key is reached, or `trigger_timers`. */
  ghost predicate HandsOut(s: State, l: Label, id: nat)
  {
    match l
    case Fire(key, _, _) => key in s.queue && s.queue[key].id == id
    case TriggerTimers(_, _) => Queued(s, id)
    case _ => false
  }

  /** The step ends the timer: cleared while queued, handed out by `trigger_timers`, or fired without re-arming. */
  ghost predicate Ends(s: State, l: Label, id: nat)
  {
    match l
    case ClearTimeout(other) => other == id && id != INVALID_TASK_ID && Queued(s, id)
    case Fire(_, _, rearms) => !rearms && HandsOut(s, l, id)
    case TriggerTimers(_, _) => Queued(s, id)
    case _ => false
  }

  /** How many of the first n steps ended the timer. */
  ghost function Endings(states: seq<State>, labels: seq<Label>, n: nat, id: nat): nat
    requires n <= |labels| < |states|
  {
    if n == 0 then 0 else Endings(states, labels, n - 1, id) + One(Ends(states[n - 1], labels[n - 1], id))
  }

  /** How many of the first n steps handed its callback out. */
  ghost function HandOuts(states: seq<State>, labels: seq<Label>, n: nat, id: nat): nat
    requires n <= |labels| < |states|
  {
    if n == 0 then 0 else HandOuts(states, labels, n - 1, id) + One(HandsOut(states[n - 1], labels[n - 1], id))
  }

  ghost function FiringsFor(firings: seq<Firing>, id: nat): nat
  {
    if firings == [] then 0
    else FiringsFor(firings[..|firings| - 1], id) + One(firings[|firings| - 1].id == id)
  }

  ghost function Places(s: State, id: nat): nat
  {
    One(Queued(s, id)) + One(InFlight(s, id))
  }

  /** A step makes the next timer, ends timers, or moves them: none is lost and none appears. */
  lemma {:induction false} StepMovesTimers(s: State, l: Label, s': State, id: nat)
    requires Inv(s) && Step(s, l, s')
    ensures Places(s', id) + One(Ends(s, l, id)) == Places(s, id) + One(l.SetTimer? && id == s.generation + 1)
    ensures s'.generation == s.generation + One(l.SetTimer?)
  {
    hide Probe, Arm, Inv, Take, Emplace, IsFirst, FiringsOf, IsIteration, Queued, InFlight;
    match l
    case SetTimer(period, clock, alive) =>
      SetKeepsInv(s, period, clock, alive);
      ArmPlaces(s.(generation := s.generation + 1), Timer(s.generation + 1, period, alive), clock + period, id);
      GenerationPlaces(s, id);
    case ClearTimeout(other) =>
      ClearPlaces(s, other, s', id);
    case Fire(key, clock, rearms) =>
      FirstIsQueued(s.queue, key);
      TakePlaces(s, key, clock, rearms, id);
    case Rearm(timer, clock) =>
      RearmKeepsInv(s, timer, clock);
      FlownPlaces(s, timer, id);
      ArmPlaces(s.(inflight := s.inflight - multiset{timer}), timer, clock + timer.period, id);
    case TriggerTimers(clock, order) =>
      EmptiedPlaces(s, s'.firings, id);
  }

  lemma {:induction false} GenerationPlaces(s: State, id: nat)
    ensures Places(s.(generation := s.generation + 1), id) == Places(s, id)
  {
  }

  lemma {:induction false} EmptiedPlaces(s: State, firings: seq<Firing>, id: nat)
    ensures Places(s.(queue := map[], firings := firings), id) == Places(s, id) - One(Queued(s, id))
  {
  }

  lemma {:induction false} ArmPlaces(s: State, timer: Timer, expires: nat, id: nat)
    requires Inv(s) && 1 <= timer.id <= s.generation && !Queued(s, timer.id) && !InFlight(s, timer.id)
    ensures Places(Arm(s, timer, expires), id) == Places(s, id) + One(id == timer.id)
    ensures Arm(s, timer, expires).generation == s.generation
  {
    hide Probe, Inv;
    ArmKeepsInv(s, timer, expires);
    var key := Probe(s.queue, expires);
    var queue := s.queue[key := timer];
    assert queue[key] == timer;
    assert forall k :: k in s.queue ==> k in queue && queue[k] == s.queue[k];
    assert forall k :: k in queue ==> k == key || (k in s.queue && queue[k] == s.queue[k]);
  }

  lemma {:induction false} ClearPlaces(s: State, other: nat, s': State, id: nat)
    requires Inv(s) && Step(s, ClearTimeout(other), s')
    ensures Places(s', id) + One(Ends(s, ClearTimeout(other), id)) == Places(s, id)
    ensures s'.generation == s.generation
  {
    hide Probe, Arm, Take, FiringsOf, FlightInv;
    if s' != s {
      var k :| k in s.queue && s.queue[k].id == other && s' == s.(queue := s.queue - {k});
      assert forall j :: j in s'.queue <==> j in s.queue && j != k;
    }
  }

  lemma {:induction false} TakePlaces(s: State, key: nat, clock: nat, rearms: bool, id: nat)
    requires Inv(s) && key in s.queue && s.queue[key].id in s.due
    ensures var s' := Take(s, key, clock, rearms);
            Places(s', id) + One(!rearms && s.queue[key].id == id) == Places(s, id) && s'.generation == s.generation
  {
    hide FlightInv;
    var t, s' := s.queue[key], Take(s, key, clock, rearms);
    assert forall j :: j in s'.queue <==> j in s.queue && j != key;
    assert forall u :: u in s'.inflight <==> u in s.inflight || (rearms && u == t);
  }

  lemma {:induction false} FlownPlaces(s: State, timer: Timer, id: nat)
    requires Inv(s) && timer in s.inflight
    ensures var s0 := s.(inflight := s.inflight - multiset{timer});
            Places(s0, id) + One(id == timer.id) == Places(s, id)
  {
    RemoveOne(s.inflight, timer, s.generation);
    hide QueueInv;
    var rest := s.inflight - multiset{timer};
    assert forall t :: t in s.inflight ==> t == timer || t in rest;
  }

  /**
   In every state of every run each number that was given out is in exactly one place: queued, in
   flight, or ended, once, by a clear that found it queued, by `trigger_timers` or by firing without
   re-arming. No other number is anywhere.
   */
  lemma {:induction false} EveryTimerInOnePlace(states: seq<State>, labels: seq<Label>, n: nat, id: nat)
    requires Run(states, labels) && n < |states|
    ensures Places(states[n], id) + Endings(states, labels, n, id) == One(1 <= id <= states[n].generation)
  {
    hide Step, Inv, Ends;
    if n == 0 {
      NothingPlaced(states[0], id);
    } else {
      EveryTimerInOnePlace(states, labels, n - 1, id);
      RunKeepsInv(states, labels, n - 1);
      assert Step(states[n - 1], labels[n - 1], states[n]);
      StepMovesTimers(states[n - 1], labels[n - 1], states[n], id);
    }
  }

  lemma {:induction false} NothingPlaced(s: State, id: nat)
    requires Init(s)
    ensures Places(s, id) == 0 && s.generation == 0 && FiringsFor(s.firings, id) == 0
  {
  }

  /** So a timer that nothing has ended is queued or in flight: an interval goes on for ever. */
  lemma {:induction false} NotEndedIsArmed(states: seq<State>, labels: seq<Label>, n: nat, id: nat)
    requires Run(states, labels) && n < |states| && 1 <= id <= states[n].generation
    requires forall i :: 0 <= i < n ==> !Ends(states[i], labels[i], id)
    ensures Queued(states[n], id) || InFlight(states[n], id)
  {
    hide Queued, InFlight, Ends;
    EveryTimerInOnePlace(states, labels, n, id);
    NoEndings(states, labels, n, id);
  }

  lemma {:induction false} NoEndings(states: seq<State>, labels: seq<Label>, n: nat, id: nat)
    requires n <= |labels| < |states| && forall i :: 0 <= i < n ==> !Ends(states[i], labels[i], id)
    ensures Endings(states, labels, n, id) == 0
  {
    hide Ends;
    if n > 0 {
      NoEndings(states, labels, n - 1, id);
    }
  }

  // ---------------------------------------------------------------------
  // Every hand-out is a firing
  // ---------------------------------------------------------------------

  lemma {:induction false} FiringsForJoined(a: seq<Firing>, b: seq<Firing>, id: nat)
    ensures FiringsFor(a + b, id) == FiringsFor(a, id) + FiringsFor(b, id)
    decreases |b|
  {
    if b == [] {
      assert a + b == a;
    } else {
      assert (a + b)[..|a + b| - 1] == a + b[..|b| - 1];
      FiringsForJoined(a, b[..|b| - 1], id);
    }
  }

  lemma {:induction false} OneFiringFor(f: Firing, id: nat)
    ensures FiringsFor([f], id) == One(f.id == id)
  {
    assert [f][..0] == [];
  }

  /** Some key of the order holds the timer. */
  ghost predicate Holds(order: seq<nat>, queue: map<nat, Timer>, id: nat)
    requires HandedKeys(order, queue)
  {
    exists i :: 0 <= i < |order| && queue[order[i]].id == id
  }

  lemma {:induction false} HoldsOnceMore(order: seq<nat>, last: nat, queue: map<nat, Timer>, id: nat)
    requires HandedKeys(order + [last], queue) && HandedKeys(order, queue) && last in queue && last !in order
    requires forall j, k :: j in queue && k in queue && queue[j].id == queue[k].id ==> j == k
    ensures One(Holds(order + [last], queue, id)) == One(Holds(order, queue, id)) + One(queue[last].id == id)
  {
    var more := order + [last];
    assert more[|order|] == last;
    assert forall i :: 0 <= i < |order| ==> more[i] == order[i] && order[i] in order;
  }

  lemma {:induction false} TriggeredOnceEach(order: seq<nat>, s: State, clock: nat, id: nat)
    requires HandedKeys(order, s.queue) && (forall i, j :: 0 <= i < j < |order| ==> order[i] < order[j])
    requires forall j, k :: j in s.queue && k in s.queue && s.queue[j].id == s.queue[k].id ==> j == k
    ensures FiringsFor(FiringsOf(order, s, clock), id) == One(Holds(order, s.queue, id))
    decreases |order|
  {
    hide FiringsFor, Holds, FiringsOf;
    if order == [] {
      NothingTriggered(s, clock, id);
    } else {
      var last, init := order[|order| - 1], order[..|order| - 1];
      assert order == init + [last] && last !in init;
      var f := Firing(s.queue[last].id, clock, DueOf(s.due, s.queue[last].id));
      TriggeredOnceEach(init, s, clock, id);
      HoldsOnceMore(init, last, s.queue, id);
      FiringsNext(init, last, s, clock);
      FiringsForJoined(FiringsOf(init, s, clock), [f], id);
      OneFiringFor(f, id);
    }
  }

  lemma {:induction false} NothingTriggered(s: State, clock: nat, id: nat)
    ensures FiringsFor(FiringsOf([], s, clock), id) == One(Holds([], s.queue, id)) == 0
  {
  }

  /** What a step adds to the firings: one entry, with the step's clock and the asked time, for each hand-out. */
  lemma {:induction false} StepFires(s: State, l: Label, s': State, id: nat)
    requires Inv(s) && Step(s, l, s')
    ensures FiringsFor(s'.firings, id) == FiringsFor(s.firings, id) + One(HandsOut(s, l, id))
    ensures s.firings <= s'.firings
    ensures forall i :: |s.firings| <= i < |s'.firings| ==>
              (l.Fire? || l.TriggerTimers?) && s'.firings[i].at == l.clock
              && s'.firings[i].due == DueOf(s.due, s'.firings[i].id)
  {
    hide Probe, FiringsOf, FiringsFor, FlightInv, Apart, Emplace;
    match l
    case SetTimer(_, _, _) =>
    case ClearTimeout(_) =>
    case Rearm(_, _) =>
    case Fire(key, clock, rearms) =>
      var f := Firing(s.queue[key].id, clock, s.due[s.queue[key].id]);
      FiringsForJoined(s.firings, [f], id);
      OneFiringFor(f, id);
    case TriggerTimers(clock, order) =>
      FiringsForJoined(s.firings, FiringsOf(order, s, clock), id);
      AllInOrder(order, s.queue, id);
      TriggeredOnceEach(order, s, clock, id);
  }

  lemma {:induction false} AllInOrder(order: seq<nat>, queue: map<nat, Timer>, id: nat)
    requires IsIteration(order, queue)
    ensures HandedKeys(order, queue) && (Holds(order, queue, id) <==> exists k :: k in queue && queue[k].id == id)
  {
    if k :| k in queue && queue[k].id == id {
      var i :| 0 <= i < |order| && order[i] == k;
    }
  }

  /** In every run the firings of a timer are exactly as many as the steps that handed its callback out. */
  lemma {:induction false} FiringsCountHandOuts(states: seq<State>, labels: seq<Label>, n: nat, id: nat)
    requires Run(states, labels) && n < |states|
    ensures FiringsFor(states[n].firings, id) == HandOuts(states, labels, n, id)
  {
    hide Step, Inv, HandsOut, FiringsFor;
    if n == 0 {
      NothingPlaced(states[0], id);
    } else {
      FiringsCountHandOuts(states, labels, n - 1, id);
      RunKeepsInv(states, labels, n - 1);
      assert Step(states[n - 1], labels[n - 1], states[n]);
      StepFires(states[n - 1], labels[n - 1], states[n], id);
    }
  }

  /** The asked time of a timer is set by the step that arms it, to its clock plus its period, and by no other. */
  lemma {:induction false} StepSetsDue(s: State, l: Label, s': State, id: nat)
    requires Step(s, l, s')
    ensures DueOf(s'.due, id)
            == if l.SetTimer? && id == s.generation + 1 then l.clock + l.period
               else if l.Rearm? && id == l.timer.id then l.clock + l.timer.period
               else DueOf(s.due, id)
  {
    hide Probe, FiringsOf, Emplace;
  }

  // ---------------------------------------------------------------------
  // The object
  // ---------------------------------------------------------------------

  class Schedule {
    var queue: map<nat, Timer>
    var inflight: multiset<Timer>
    var generation: nat
    var enqueue: bool
    ghost var due: map<nat, nat>
    ghost var firings: seq<Firing>

    ghost function View(): State
      reads this
    {
      State(queue, inflight, generation, due, firings)
    }

    constructor ()
      ensures Init(View()) && enqueue
    {
      queue, inflight, generation, enqueue := map[], multiset{}, 0, true;
      due, firings := map[], [];
    }

    /** `get_timeout`: step past occupied keys. */
    method GetTimeout(clock: nat) returns (key: nat)
      ensures key == Probe(queue, clock)
      ensures clock <= key && key !in queue && forall k :: clock <= k < key ==> k in queue
    {
      key := clock;
      while key in queue
        invariant clock <= key && Probe(queue, clock) == Probe(queue, key)
        decreases |KeysFrom(queue, key)|
      {
        KeysFromShrinks(queue, key);
        key := key + 1;
      }
    }

    /** `set_timeout` and `set_interval`, with the clock reading as a parameter. */
    method SetTimer(milliseconds: nat, clock: nat, alive: bool) returns (id: nat)
      modifies this
      ensures enqueue == old(enqueue)
      ensures !old(enqueue) ==> id == INVALID_TASK_ID && View() == old(View())
      ensures old(enqueue) ==> id == old(generation) + 1
                               && Step(old(View()), Label.SetTimer(milliseconds * 1000, clock, alive), View())
    {
      if !enqueue {
        return INVALID_TASK_ID;
      }
      hide Probe;
      var duration := milliseconds * 1000;
      var expires := clock + duration;
      generation := generation + 1;
      id := generation;
      var key := GetTimeout(expires);
      queue := Emplace(queue, key, Timer(id, duration, alive));
      due := due[id := expires];
    }

    /** `clear_timeout`: walk the queue, erase the first timer with the number. */
    method ClearTimeout(target: nat) returns (found: bool)
      modifies this
      ensures enqueue == old(enqueue)
      ensures Step(old(View()), Label.ClearTimeout(target), View())
      ensures found <==> target != INVALID_TASK_ID && Queued(old(View()), target)
    {
      if target == INVALID_TASK_ID {
        return false;
      }
      hide Probe;
      var rest := queue.Keys;
      while |rest| > 0
        invariant rest <= queue.Keys && View() == old(View())
        invariant enqueue == old(enqueue)
        invariant forall k :: k in queue && k !in rest ==> queue[k].id != target
        decreases |rest|
      {
        var k :| k in rest;
        if queue[k].id == target {
          assert old(View()).queue[k].id == target;
          queue := queue - {k};
          return true;
        }
        rest := rest - {k};
      }
      return false;
    }

    /** The first key of the ordered map. */
    method First() returns (key: nat)
      requires queue != map[]
      ensures IsFirst(queue, key)
    {
      key :| key in queue;
      var rest := queue.Keys - {key};
      while |rest| > 0
        invariant key in queue && rest <= queue.Keys
        invariant forall k :: k in queue && k !in rest ==> key <= k
        decreases |rest|
      {
        var k :| k in rest;
        if k < key {
          key := k;
        }
        rest := rest - {k};
      }
    }

    /** One round of the timer thread under the lock: fire the first timer if its key has been reached. */
    method FireDue(clock: nat) returns (fired: bool)
      requires Inv(View())
      modifies this
      ensures enqueue == old(enqueue)
      ensures fired <==> exists k :: k in old(queue) && k <= clock
      ensures !fired ==> View() == old(View())
      ensures fired ==>
              exists k :: k in old(queue) && Step(old(View()), Label.Fire(k, clock, old(queue)[k].alive), View())
    {
      hide Probe, Emplace, FlightInv, Apart, FiringsOf;
      if queue == map[] {
        return false;
      }
      var key := First();
      if key > clock {
        return false;
      }
      var next := queue[key];
      assert Step(View(), Label.Fire(key, clock, next.alive), Take(View(), key, clock, next.alive));
      queue := queue - {key};
      if next.alive {
        inflight := inflight + multiset{next};
      }
      firings := firings + [Firing(next.id, clock, due[next.id])];
      return true;
    }

    /** The end of a re-arm task, after the callback has returned. */
    method Rearm(next: Timer, clock: nat)
      requires next in inflight
      modifies this
      ensures enqueue == old(enqueue)
      ensures Step(old(View()), Label.Rearm(next, clock), View())
    {
      hide Probe;
      inflight := inflight - multiset{next};
      var key := GetTimeout(clock + next.period);
      queue := Emplace(queue, key, next);
      due := due[next.id := clock + next.period];
    }

    /** `trigger_timers`: every queued callback is handed out at once, in the order of the keys. */
    method TriggerTimers(clock: nat) returns (any: bool, ghost order: seq<nat>)
      modifies this
      ensures enqueue == old(enqueue) && any == (old(queue) != map[])
      ensures Step(old(View()), Label.TriggerTimers(clock, order), View())
    {
      hide Probe, FiringsOf, Handed, IsFirst, IsIteration;
      any := queue != map[];
      ghost var start := View();
      order := [];
      NothingHanded(start, clock);
      while queue != map[]
        invariant enqueue == old(enqueue) && inflight == start.inflight && generation == start.generation
                  && due == start.due
        invariant Handed(start.queue, queue, order)
        invariant HandedKeys(order, start.queue) && firings == start.firings + FiringsOf(order, start, clock)
        decreases |queue|
      {
        var key := First();
        HandedNext(start, queue, order, key, clock);
        FewerKeys(queue, key);
        firings := firings + [Firing(queue[key].id, clock, DueOf(due, queue[key].id))];
        order := order + [key];
        queue := queue - {key};
      }
      AllHanded(start.queue, order);
    }
  }

  // ---------------------------------------------------------------------
  // The iteration of trigger_timers
  // ---------------------------------------------------------------------

  ghost predicate HandedKeys(order: seq<nat>, queue: map<nat, Timer>)
  {
    forall i :: 0 <= i < |order| ==> order[i] in queue
  }

  /** The keys handed out so far are the lowest, in order; `rest` is what is left of the queue. */
  ghost predicate Handed(queue: map<nat, Timer>, rest: map<nat, Timer>, order: seq<nat>)
  {
    && (forall k :: k in rest ==> k in queue && rest[k] == queue[k])
    && (forall k :: k in queue ==> k in rest || k in order)
    && (forall i, j :: 0 <= i < j < |order| ==> order[i] < order[j])
    && (forall i, k :: 0 <= i < |order| && k in rest ==> order[i] < k)
  }

  lemma {:induction false} NothingHanded(s: State, clock: nat)
    ensures Handed(s.queue, s.queue, []) && s.firings + FiringsOf([], s, clock) == s.firings
  {
  }

  lemma {:induction false} HandedNext(s: State, rest: map<nat, Timer>, order: seq<nat>, key: nat, clock: nat)
    requires Handed(s.queue, rest, order) && HandedKeys(order, s.queue) && IsFirst(rest, key)
    ensures Handed(s.queue, rest - {key}, order + [key]) && HandedKeys(order + [key], s.queue)
            && rest[key] == s.queue[key]
    ensures s.firings + FiringsOf(order + [key], s, clock)
            == s.firings + FiringsOf(order, s, clock) + [Firing(s.queue[key].id, clock, DueOf(s.due, s.queue[key].id))]
  {
    hide FiringsOf;
    assert key in rest && key in s.queue && rest[key] == s.queue[key];
    hide Handed, IsFirst;
    HandedOneMore(s.queue, rest, order, key);
    FiringsNext(order, key, s, clock);
    Regroup(s.firings, FiringsOf(order, s, clock), [Firing(s.queue[key].id, clock, DueOf(s.due, s.queue[key].id))]);
  }

  lemma {:induction false} HandedOneMore(queue: map<nat, Timer>, rest: map<nat, Timer>, order: seq<nat>, key: nat)
    requires Handed(queue, rest, order) && IsFirst(rest, key)
    ensures Handed(queue, rest - {key}, order + [key])
  {
    var order' := order + [key];
    forall k | k in queue
      ensures k in rest - {key} || k in order'
    {
      assert order'[|order|] == key;
      if k in order {
        var i :| 0 <= i < |order| && order[i] == k;
        assert order'[i] == k;
      }
    }
    forall i, j | 0 <= i < j < |order'|
      ensures order'[i] < order'[j]
    {
      assert order[i] == order'[i];
    }
  }

  lemma {:induction false} FiringsNext(order: seq<nat>, key: nat, s: State, clock: nat)
    requires key in s.queue && HandedKeys(order, s.queue)
    ensures HandedKeys(order + [key], s.queue)
    ensures FiringsOf(order + [key], s, clock)
            == FiringsOf(order, s, clock) + [Firing(s.queue[key].id, clock, DueOf(s.due, s.queue[key].id))]
  {
    assert (order + [key])[..|order|] == order;
  }

  lemma {:induction false} FewerKeys(queue: map<nat, Timer>, key: nat)
    requires IsFirst(queue, key)
    ensures key in queue && |queue - {key}| < |queue|
  {
    assert (queue - {key}).Keys == queue.Keys - {key};
  }

  lemma {:induction false} AllHanded(queue: map<nat, Timer>, order: seq<nat>)
    requires Handed(queue, map[], order) && HandedKeys(order, queue)
    ensures IsIteration(order, queue)
  {
  }
}
