/**
 `costate`: the pools of coroutines of one thread. User code runs in slices whose
 outcome is not known beforehand, and other threads may wake suspended coroutines
 at any time; both are nondeterministic here.
 */
module Coroutines {

  datatype Execution = Active | Suspended | Resumable | Finished

  /** `callback` and `defer` are only known to be set or empty. */
  datatype Routine = Routine(state: Execution, callback: bool, defer: bool)

  /**
   How a slice gives control back: by returning, by `suspend`, or by `deactivate`, with or without a deferred
   call.
   */
  datatype Outcome = Returns | Yields | Deactivates(after: bool)

  datatype Current = Nobody | Somebody(id: nat)

  /** What has happened on the thread: a slice of a routine and how it ended, or the call it had deferred. */
  datatype Happening = Ran(id: nat, outcome: Outcome) | Called(id: nat)

  const IDLE: Routine := Routine(Active, false, false)

  /** Nothing but suspended routines turning resumable. */
  ghost predicate Woken(before: map<nat, Routine>, after: map<nat, Routine>)
  {
    && after.Keys == before.Keys
    && forall r :: r in before ==>
         after[r] == before[r]
         || (before[r].state == Suspended && after[r] == before[r].(state := Resumable))
  }

  lemma {:induction false} WokenTwice(a: map<nat, Routine>, b: map<nat, Routine>, c: map<nat, Routine>)
    requires Woken(a, b) && Woken(b, c)
    ensures Woken(a, c)
  {
    forall r | r in a
      ensures c[r] == a[r] || (a[r].state == Suspended && c[r] == a[r].(state := Resumable))
    {
      assert r in b;
    }
  }

  /** Wake-ups before and after a slice, seen apart from the routine that ran. */
  lemma {:induction false} WokenAround(
    a: map<nat, Routine>, b: map<nat, Routine>, c: map<nat, Routine>, routine: nat, x: Routine)
    requires routine in a && routine in b && Woken(a[routine := b[routine]], b) && Woken(b, c)
    ensures Woken(a[routine := x], c[routine := x])
  {
    WokenTwice(a[routine := b[routine]], b, c);
  }

  /** What one execution adds to the history: a slice, and the deferred call right behind it if the slice left one. */
  ghost function Turn(routine: nat, outcome: Outcome): seq<Happening>
  {
    [Ran(routine, outcome)] + if outcome == Deactivates(true) then [Called(routine)] else []
  }

  /** Deferred calls are made exactly behind the slices that left them. */
  ghost predicate Paired(history: seq<Happening>)
  {
    && (forall i :: 0 <= i < |history| && history[i].Ran? && history[i].outcome == Deactivates(true) ==>
          i + 1 < |history| && history[i + 1] == Called(history[i].id))
    && (forall i :: 0 <= i < |history| && history[i].Called? ==>
          i > 0 && history[i - 1] == Ran(history[i].id, Deactivates(true)))
  }

  lemma {:induction false} PairedMore(history: seq<Happening>, routine: nat, outcome: Outcome)
    requires Paired(history)
    ensures Paired(history + Turn(routine, outcome))
  {
    var more := history + Turn(routine, outcome);
    assert forall i :: 0 <= i < |history| ==> more[i] == history[i];
  }

  /** Whether a routine got a slice since the history had `from` entries. */
  ghost predicate RanSince(history: seq<Happening>, from: nat, routine: nat)
  {
    exists i :: from <= i < |history| && history[i].Ran? && history[i].id == routine
  }

  lemma {:induction false} RanStays(history: seq<Happening>, from: nat, other: nat, outcome: Outcome)
    requires from <= |history|
    ensures RanSince(history + Turn(other, outcome), from, other)
    ensures forall r :: RanSince(history, from, r) ==> RanSince(history + Turn(other, outcome), from, r)
  {
    var more := history + Turn(other, outcome);
    assert more[|history|] == Ran(other, outcome);
    forall r | RanSince(history, from, r)
      ensures RanSince(more, from, r)
    {
      var i :| from <= i < |history| && history[i].Ran? && history[i].id == r;
      assert more[i] == history[i];
    }
  }

  lemma {:induction false} WokenBehind(a: map<nat, Routine>, b: map<nat, Routine>, c: map<nat, Routine>, routine: nat)
    requires routine in a && routine in b && routine in c
    requires Woken(a[routine := b[routine]], b) && Woken(b[routine := c[routine]], c)
    ensures Woken(a[routine := c[routine]], c)
  {
  }

  /** Everything since then was about these routines. */
  ghost predicate Only(history: seq<Happening>, from: nat, routines: set<nat>)
  {
    forall i :: from <= i < |history| ==> history[i].id in routines
  }

  /** Each of these routines had a slice since then from which it returned. */
  ghost predicate Returned(history: seq<Happening>, from: nat, routines: set<nat>)
  {
    forall r :: r in routines ==> exists i :: from <= i < |history| && history[i] == Ran(r, Returns)
  }

  /** What a turn adds to the history, and what it leaves as it was. */
  lemma {:induction false} TurnAdded(
    past: seq<Happening>, from: nat, routine: nat, outcome: Outcome, all: set<nat>, gone: set<nat>)
    requires from <= |past| && routine in all && Only(past, from, all) && Returned(past, from, gone)
    ensures var more := past + Turn(routine, outcome);
            && past <= more && past != more
            && Only(more, from, all)
            && Returned(more, from, if outcome == Returns then gone + {routine} else gone)
            && RanSince(more, from, routine)
            && forall r :: RanSince(past, from, r) ==> RanSince(more, from, r)
  {
    RanStays(past, from, routine, outcome);
    hide RanSince;
    var more := past + Turn(routine, outcome);
    assert more[|past|] == Ran(routine, outcome);
    forall r | r in gone
      ensures exists i :: from <= i < |more| && more[i] == Ran(r, Returns)
    {
      var i :| from <= i < |past| && past[i] == Ran(r, Returns);
      assert more[i] == past[i];
    }
  }

  // ---------------------------------------------------------------------
  // What a dispatch has done so far
  // ---------------------------------------------------------------------

  datatype Snapshot = Snapshot(used: set<nat>, table: map<nat, Routine>, history: seq<Happening>)

  /**
   From `start`, with `pending` still to be visited: who has not had a slice yet, though not suspended, is
   pending.
   */
  ghost predicate Serving(start: Snapshot, now: Snapshot, pending: set<nat>)
  {
    && pending <= now.used <= start.used <= start.table.Keys && now.used <= now.table.Keys
    && start.history <= now.history
    && Only(now.history, |start.history|, start.used)
    && Returned(now.history, |start.history|, start.used - now.used)
    && (forall r :: r in start.used && start.table[r].state != Suspended ==>
          RanSince(now.history, |start.history|, r) || (r in pending && now.table[r].state != Suspended))
    && (now.history == start.history ==>
          && now.used == start.used && Woken(start.table, now.table)
          && forall r :: r in now.used && r !in pending ==> start.table[r].state == Suspended)
  }

  lemma {:induction false} ServingStarts(s: Snapshot)
    requires s.used <= s.table.Keys
    ensures Serving(s, s, s.used)
  {
  }

  lemma {:induction false} ServingEnds(start: Snapshot, now: Snapshot)
    requires Serving(start, now, {})
    ensures now.used <= start.used <= start.table.Keys && start.history <= now.history
    ensures Only(now.history, |start.history|, start.used)
    ensures Returned(now.history, |start.history|, start.used - now.used)
    ensures forall r :: r in start.used && start.table[r].state != Suspended ==>
            RanSince(now.history, |start.history|, r)
    ensures now.history == start.history ==>
              now.used == start.used && forall r :: r in now.used ==> start.table[r].state == Suspended
  {
    hide Only, Returned, RanSince, Woken;
  }

  lemma {:induction false} ServingSkipped(
    start: Snapshot, now: Snapshot, after: Snapshot, pending: set<nat>, routine: nat)
    requires Serving(start, now, pending) && routine in pending
    requires after.used == now.used && after.history == now.history && Woken(now.table, after.table)
    requires now.table[routine].state == Suspended
    ensures Serving(start, after, pending - {routine})
  {
    hide Only, Returned, RanSince;
    if now.history == start.history {
      WokenTwice(start.table, now.table, after.table);
    }
  }

  lemma {:induction false} ServingRan(
    start: Snapshot, now: Snapshot, after: Snapshot, pending: set<nat>, routine: nat, outcome: Outcome)
    requires Serving(start, now, pending) && routine in pending
    requires after.used == (if outcome == Returns then now.used - {routine} else now.used)
             && after.used <= after.table.Keys
    requires after.history == now.history + Turn(routine, outcome)
    requires forall r :: r in now.used && r != routine && now.table[r].state != Suspended ==>
               r in after.used && after.table[r].state != Suspended
    ensures Serving(start, after, if outcome == Returns then after.used else pending - {routine})
    ensures after.history != start.history
  {
    TurnAdded(now.history, |start.history|, routine, outcome, start.used, start.used - now.used);
    hide Only, Returned, RanSince, Woken, Turn;
    if outcome == Returns {
      assert start.used - after.used == (start.used - now.used) + {routine};
    }
    assert |after.history| > |now.history|;
  }

  class Costate {
    var table: map<nat, Routine>
    var used: set<nat>
    var cached: set<nat>
    var current: Current
    var next: nat
    ghost var history: seq<Happening>

    ghost predicate Valid()
      reads this
    {
      && used !! cached
      && table.Keys == used + cached
      && (forall r :: r in cached ==> table[r] == IDLE)
      && (forall r :: r in used ==> table[r].callback)
      && (current.Somebody? ==> current.id in used)
      && (forall r :: r in table ==> r < next)
    }

    /**
     Between slices: nobody is current, nothing finished is left in use, no deferred call is pending,
     and every call that was deferred has been made right behind its slice.
     */
    ghost predicate Quiet()
      reads this
    {
      && Valid()
      && current == Nobody
      && (forall r :: r in used ==> table[r].state != Finished && !table[r].defer)
      && Paired(history)
    }

    constructor ()
      ensures Quiet() && used == {} && cached == {} && history == []
    {
      table, used, cached, current, next := map[], {}, {}, Nobody, 0;
      history := [];
    }

    /** A cached routine is reused before a new one is made. */
    method Pop() returns (routine: nat)
      requires Quiet()
      modifies this
      ensures Quiet() && history == old(history)
      ensures routine !in old(used) && used == old(used) + {routine} && |used| == old(|used|) + 1
      ensures table[routine] == Routine(Active, true, false)
      ensures if old(cached) == {} then routine !in old(table) && cached == {}
              else routine in old(cached) && cached == old(cached) - {routine}
      ensures forall r :: r in old(used) ==> table[r] == old(table)[r]
    {
      if cached != {} {
        routine := PopCached();
      } else {
        routine := PopNew();
      }
    }

    method PopCached() returns (routine: nat)
      requires Quiet() && cached != {}
      modifies this
      ensures Quiet() && history == old(history)
      ensures routine in old(cached) && used == old(used) + {routine} && |used| == old(|used|) + 1
      ensures table == old(table)[routine := Routine(Active, true, false)] && cached == old(cached) - {routine}
    {
      routine :| routine in cached;
      cached := cached - {routine};
      table := table[routine := Routine(Active, true, false)];
      used := used + {routine};
      assert table.Keys == used + cached;
    }

    method PopNew() returns (routine: nat)
      requires Quiet() && cached == {}
      modifies this
      ensures Quiet() && history == old(history)
      ensures routine !in old(table) && used == old(used) + {routine} && |used| == old(|used|) + 1
      ensures table == old(table)[routine := Routine(Active, true, false)] && cached == {}
    {
      routine := next;
      next := next + 1;
      table := table[routine := Routine(Active, true, false)];
      used := used + {routine};
      assert table.Keys == used + cached;
    }

    /** `activate`: only a suspended routine changes. */
    method Activate(routine: nat)
      requires Valid() && routine in used && table[routine].state != Finished
      modifies this`table
      ensures Valid() && Woken(old(table), table)
      ensures table[routine].state == if old(table)[routine].state
              == Suspended then Resumable else old(table)[routine].state
    {
      if table[routine].state == Suspended {
        table := table[routine := table[routine].(state := Resumable)];
      }
    }

    /** Any number of wake-ups by other threads, or by user code, at one point. */
    method Interference()
      requires Valid()
      modifies this`table
      ensures Valid() && Woken(old(table), table)
    {
      var rest: set<nat> := *;
      rest := rest * used;
      while |rest| > 0
        invariant Valid() && rest <= used
        invariant Woken(old(table), table)
        decreases |rest|
      {
        var r :| r in rest;
        ghost var before := table;
        if table[r].state != Finished {
          Activate(r);
        }
        WokenTwice(old(table), before, table);
        rest := rest - {r};
      }
    }

    /** The current routine runs until it gives control back, in whatever way; others may be woken meanwhile. */
    method Slice(routine: nat) returns (ghost outcome: Outcome)
      requires Valid() && current == Somebody(routine) && table[routine].state == Active && !table[routine].defer
      modifies this`table, this`current, this`history
      ensures Valid() && current == Nobody
      ensures history == old(history) + [Ran(routine, outcome)]
      ensures table.Keys == old(table).Keys
      ensures table[routine].state
              == match outcome case Returns => Finished case Yields => Active case Deactivates(_) => Suspended
      ensures table[routine].defer == (outcome == Deactivates(true))
      ensures Woken(old(table)[routine := table[routine]], table)
    {
      Interference();
      var how: Outcome := *;
      match how {
        case Returns =>
          table := table[routine := table[routine].(defer := false, state := Finished)];
        case Yields =>
        case Deactivates(after) =>
          table := table[routine := table[routine].(defer := after, state := Suspended)];
      }
      current := Nobody;
      outcome := how;
      history := history + [Ran(routine, outcome)];
    }

    /** The call that a slice left behind runs, and is forgotten; it may wake anyone, the routine itself included. */
    method RunDeferred(routine: nat)
      requires Valid() && routine in used && table[routine].defer && current == Nobody
      modifies this`table, this`history
      ensures Valid()
      ensures history == old(history) + [Called(routine)]
      ensures !table[routine].defer
      ensures table[routine].state == old(table)[routine].state
              || (old(table)[routine].state == Suspended && table[routine].state == Resumable)
      ensures Woken(old(table)[routine := table[routine]], table)
    {
      Interference();
      history := history + [Called(routine)];
      WokenAround(old(table), old(table), table, routine, table[routine].(defer := false));
      table := table[routine := table[routine].(defer := false)];
    }

    /** `execute`: unless the routine is suspended, run one slice, then the deferred call if the slice left one. */
    method Execute(routine: nat) returns (result: Execution, ghost outcome: Outcome)
      requires Valid() && current == Nobody && routine in used && table[routine].state != Finished
               && !table[routine].defer
      modifies this`table, this`current, this`history
      ensures Valid() && current == Nobody && table.Keys == old(table).Keys
      ensures result == Suspended <==> old(table)[routine].state == Suspended
      ensures result == Suspended ==> table == old(table) && history == old(history)
      ensures result != Suspended ==> history == old(history) + Turn(routine, outcome)
      ensures result == (if old(table)[routine].state == Suspended then Suspended
                         else if outcome == Returns then Finished else Active)
      ensures result != Suspended ==>
                !table[routine].defer
                && match outcome
                   case Returns => table[routine].state == Finished
                   case Yields => table[routine].state == Active
                   case Deactivates(after) =>
                     table[routine].state == Suspended || (after && table[routine].state == Resumable)
      ensures Woken(old(table)[routine := table[routine]], table)
    {
      outcome := Yields;
      if table[routine].state == Suspended {
        return Suspended, outcome;
      }
      if table[routine].state == Resumable {
        table := table[routine := table[routine].(state := Active)];
      }
      current := Somebody(routine);
      outcome := Slice(routine);
      assert Woken(old(table)[routine := table[routine]], table);
      if table[routine].defer {
        ghost var before := table;
        RunDeferred(routine);
        WokenBehind(old(table), before, table, routine);
      }
      result := if table[routine].state == Finished then Finished else Active;
    }

    /** `reuse`: a finished routine goes back to the cache, empty. */
    method Reuse(routine: nat)
      requires Valid() && current == Nobody && routine in used && table[routine].state == Finished
      modifies this
      ensures Valid() && current == Nobody && next == old(next) && history == old(history)
      ensures used == old(used) - {routine} && cached == old(cached) + {routine}
      ensures table == old(table)[routine := IDLE]
    {
      table := table[routine := table[routine].(callback := false, defer := false, state := Active)];
      used := used - {routine};
      cached := cached + {routine};
    }

    /** `push`: a finished routine is destroyed. */
    method Push(routine: nat)
      requires Valid() && current == Nobody && routine in used && table[routine].state == Finished
      modifies this
      ensures Valid() && current == Nobody && history == old(history)
      ensures used == old(used) - {routine} && cached == old(cached) && table == old(table) - {routine}
    {
      cached := cached - {routine};
      used := used - {routine};
      table := table - {routine};
    }

    /** `clear`: the cache is emptied, nothing in use is touched. */
    method Clear()
      requires Quiet()
      modifies this
      ensures Quiet() && cached == {} && used == old(used) && history == old(history)
      ensures forall r :: r in used ==> table[r] == old(table)[r]
    {
      table := table - cached;
      cached := {};
    }

    /** One turn of the dispatch loop: other threads may act, then the routine gets its slice. */
    method Visit(routine: nat) returns (result: Execution, ghost outcome: Outcome)
      requires Quiet() && routine in used
      modifies this
      ensures Quiet() && table.Keys == old(table.Keys) && used + cached == old(used + cached)
      ensures used == if result == Finished then old(used) - {routine} else old(used)
      ensures result != Resumable && (result == Finished <==> result != Suspended && outcome == Returns)
      ensures history == if result == Suspended then old(history) else old(history) + Turn(routine, outcome)
      ensures result == Suspended ==> Woken(old(table), table) && old(table)[routine].state == Suspended
      ensures forall r :: r in old(used) && r != routine && old(table)[r].state != Suspended ==>
                r in used && table[r].state != Suspended
    {
      Interference();
      result, outcome := Execute(routine);
      if result != Suspended {
        PairedMore(old(history), routine, outcome);
      }
      if result == Finished {
        Reuse(routine);
      }
    }

    /**
     `dispatch`: give every routine in use a slice, starting over whenever one finishes.
     It ends, loses no routine, leaves none finished, gives a slice to every routine in use
     that was not suspended when it began, and answers whether it gave any.
     */
    method Dispatch() returns (more: bool)
      requires Quiet()
      modifies this
      ensures Quiet()
      ensures used + cached == old(used + cached) && used <= old(used) && table.Keys == old(table.Keys)
      ensures !more ==> used == old(used) && forall r :: r in used ==> old(table)[r].state == Suspended
      ensures old(history) <= history && (more <==> history != old(history))
      ensures Only(history, |old(history)|, old(used)) && Returned(history, |old(history)|, old(used) - used)
      ensures forall r :: r in old(used) && old(table)[r].state != Suspended ==> RanSince(history, |old(history)|, r)
    {
      hide IDLE, RanSince, Turn, Paired, Only, Returned, Woken, Serving;
      var executions := 0;
      var pending := used;
      ghost var start := Snapshot(used, table, history);
      ServingStarts(start);
      while |pending| > 0
        invariant Quiet() && pending <= used
        invariant used + cached == old(used + cached) && table.Keys == old(table.Keys)
        invariant executions >= 0 && (executions > 0 <==> history != start.history)
        invariant Serving(start, Snapshot(used, table, history), pending)
        decreases |used|, |pending|
      {
        ghost var before := Snapshot(used, table, history);
        var routine :| routine in pending;
        var result;
        ghost var outcome;
        result, outcome := Visit(routine);
        ghost var after := Snapshot(used, table, history);
        if result != Suspended {
          ServingRan(start, before, after, pending, routine, outcome);
        } else {
          ServingSkipped(start, before, after, pending, routine);
        }
        pending := pending - {routine};
        match result {
          case Active => executions := executions + 1;
          case Suspended =>
          case Resumable =>
          case Finished =>
            executions := executions + 1;
            pending := used;
        }
      }
      ServingEnds(start, Snapshot(used, table, history));
      more := executions > 0;
    }

    /**
     Filling the pool before a dispatch: the thread's own recycled tasks first, then the
     shared queue, and never more than the policy allows. The answer is how many were
     taken from each.
     */
    method Fill(own: nat, shared: nat, max: nat) returns (i: nat, j: nat)
      requires Quiet() && |used| <= max
      modifies this
      ensures Quiet() && old(used) <= used && |used| <= max && history == old(history)
      ensures i <= own && j <= shared && |used| == old(|used|) + i + j
      ensures j > 0 ==> i == own
      ensures |used| < max ==> i == own && j == shared
    {
      i, j := 0, 0;
      var cache := max - |used|;
      while cache > 0
        invariant Quiet() && old(used) <= used && history == old(history)
        invariant 0 <= cache == max - |used|
        invariant i <= own && j <= shared && |used| == old(|used|) + i + j
        invariant j > 0 ==> i == own
        decreases cache
      {
        if i < own {
          i := i + 1;
        } else if j < shared {
          j := j + 1;
        } else {
          break;
        }
        cache := cache - 1;
        var routine := Pop();
      }
    }
  }
}
