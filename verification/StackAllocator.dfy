/**
 * `stack_allocator`: each block carries its size in front of the bytes a caller gets, so that blocks
 * can be taken back one after the other, last first.
 */
module StackAllocator {
  import opened Regions

  /** sizeof(size_t). */
  const WORD: nat := 8

  /** `words` is the memory where sizes are stored: what is written at an address. */
  datatype State = State(regions: seq<Region>, sizing: nat, words: map<nat, nat>)

  // ---------------------------------------------------------------------
  // Operations
  // ---------------------------------------------------------------------

  function Allocated(s: State, size: nat, base: nat): (r: State)
    ensures r.regions != [] && |r.regions| >= |s.regions|
  {
    var rs := Roomy(s.regions, size + WORD, base);
    var at := Bottom(rs).free;
    State(MovedTo(rs, at + (size + WORD)), s.sizing, s.words[at := size + WORD])
  }

  /** The block that an allocation takes, its size word included; callers get the address behind the word. */
  function Taken(s: State, size: nat, base: nat): Block
  {
    Block(Bottom(Roomy(s.regions, size + WORD, base)).free, size + WORD)
  }

  /** Memory that was never written reads as nothing in particular. */
  function WordAt(words: map<nat, nat>, at: int): nat
  {
    if at in words then words[at] else 0
  }

  function Freed(s: State, address: nat): State
    requires s.regions != []
  {
    var offset := address - WORD;
    var origin := Bottom(s.regions).free - WordAt(s.words, offset);
    if origin == offset && origin >= 0 then s.(regions := MovedTo(s.regions, origin)) else s
  }

  function WasReset(s: State, base: nat): State
  {
    var (rs, sizing) := ResetRegions(s.regions, s.sizing, base);
    State(rs, sizing, s.words)
  }

  class Allocator {
    var regions: seq<Region>
    var sizing: nat
    var words: map<nat, nat>

    function Abstract(): State
      reads this
    {
      State(regions, sizing, words)
    }

    constructor (size: nat, base: nat)
      ensures Abstract() == State(if size > 0 then Grown([], base, size) else [], size, map[])
    {
      sizing := size;
      regions := if size > 0 then Grown([], base, size) else [];
      words := map[];
    }

    method Allocate(size: nat, base: nat) returns (address: nat)
      modifies this
      ensures Abstract() == Allocated(old(Abstract()), size, base)
      ensures address == Taken(old(Abstract()), size, base).address + WORD
      ensures old(regions) != [] && Left(old(regions)) >= size + 8 ==>
                |regions| == |old(regions)| && address == Bottom(old(regions)).free + 8
      ensures old(regions) == [] || Left(old(regions)) < size + 8 ==>
                |regions| == |old(regions)| + 1 && address == base + 8 && Bottom(regions).size == size + 8
      ensures Bottom(regions).free == address + size && words == old(words)[address - 8 := size + 8]
    {
      var need := size + WORD;
      if regions == [] {
        regions := Grown(regions, base, need);
      }
      while Left(regions) < need
        invariant regions != []
        invariant words == old(words) && sizing == old(sizing)
        invariant NeedsRegion(old(regions), need) ==>
                regions == old(regions) || regions == Grown(old(regions), base, need)
        invariant !NeedsRegion(old(regions), need) ==> regions == old(regions)
        decreases need - Left(regions)
      {
        regions := Grown(regions, base, need);
      }
      var offset := Bottom(regions).free;
      regions := regions[|regions| - 1 := Bottom(regions).(free := offset + need)];
      words := words[offset := need];
      address := offset + WORD;
    }

    method Free(address: nat)
      requires regions != []
      modifies this`regions
      ensures Abstract() == Freed(old(Abstract()), address)
    {
      var offset := address - WORD;
      var origin := Bottom(regions).free - WordAt(words, offset);
      if origin == offset && origin >= 0 {
        regions := regions[|regions| - 1 := Bottom(regions).(free := origin)];
      }
    }

    method Reset(base: nat) returns (released: seq<int>)
      modifies this
      ensures Abstract() == WasReset(old(Abstract()), base)
      ensures if Total(old(regions)) > old(sizing) then |released| == |old(regions)| else released == []
      ensures forall i :: 0 <= i < |released| ==> released[i] == old(regions)[|released| - 1 - i].base - 40
    {
      regions, sizing, released := ResetList(regions, sizing, base);
    }
  }

  // ---------------------------------------------------------------------
  // Runs
  // ---------------------------------------------------------------------

  datatype World = World(state: State, live: set<Block>)

  datatype Event =
    | Allocate(size: nat, base: nat)
    | Free(block: Block)
    | Reset(base: nat)
    | Fill(block: Block, words: map<nat, nat>)

  /** A caller's writes stay behind the size word of its own block. */
  ghost predicate WritesInto(b: Block, before: map<nat, nat>, after: map<nat, nat>)
  {
    forall k: nat :: k <= b.address || b.address + b.size <= k ==>
      (k in before <==> k in after) && (k in before ==> before[k] == after[k])
  }

  ghost predicate Allowed(w: World, e: Event)
  {
    match e
    case Allocate(size, base) => NeedsRegion(w.state.regions, size + WORD) ==>
        FreshAt(w.state.regions, base, size + WORD)
    case Free(block) => block in w.live && w.state.regions != []
    case Reset(base) => HEADER <= base
    case Fill(block, words) => block in w.live && WritesInto(block, w.state.words, words)
  }

  ghost function Step(w: World, e: Event): World
    requires Allowed(w, e)
  {
    match e
    case Allocate(size, base) => World(Allocated(w.state, size, base), w.live + {Taken(w.state, size, base)})
    case Free(block) => World(Freed(w.state, block.address + WORD), w.live - {block})
    case Reset(base) => World(WasReset(w.state, base), {})
    case Fill(_, words) => World(w.state.(words := words), w.live)
  }

  ghost predicate AllowedRun(w: World, es: seq<Event>)
    decreases |es|
  {
    es != [] ==> Allowed(w, es[0]) && AllowedRun(Step(w, es[0]), es[1..])
  }

  ghost function Run(w: World, es: seq<Event>): World
    requires AllowedRun(w, es)
    decreases |es|
  {
    if es == [] then w else Run(Step(w, es[0]), es[1..])
  }

  /** Every live block's size word is intact. */
  ghost predicate Marked(words: map<nat, nat>, live: set<Block>)
  {
    forall b :: b in live ==> b.size >= WORD && b.address in words && words[b.address] == b.size
  }

  ghost predicate Inv(w: World)
  {
    Regular(w.state.regions) && Holding(w.state.regions, w.live) && Marked(w.state.words, w.live)
  }

  lemma {:induction false} AllocateKeeps(w: World, size: nat, base: nat)
    requires Inv(w) && Allowed(w, Allocate(size, base))
    ensures Inv(Step(w, Allocate(size, base)))
    ensures Taken(w.state, size, base) !in w.live
  {
    hide Regular, Holding, FreshAt;
    var rs := Roomy(w.state.regions, size + WORD, base);
    if NeedsRegion(w.state.regions, size + WORD) {
      GrownKeeps(w.state.regions, w.live, base, size + WORD);
    }
    CutKeeps(rs, w.live, size + WORD);
  }

  lemma {:induction false} FreeKeeps(w: World, b: Block)
    requires Inv(w) && Allowed(w, Free(b))
    ensures Inv(Step(w, Free(b)))
  {
    hide Regular;
    if b.address + b.size == Bottom(w.state.regions).free {
      TakenBackKeeps(w.state.regions, w.live, b);
    }
  }

  lemma {:induction false} FillKeeps(w: World, b: Block, words: map<nat, nat>)
    requires Inv(w) && Allowed(w, Fill(b, words))
    ensures Inv(Step(w, Fill(b, words)))
  {
    forall c | c in w.live
      ensures c.address in words && words[c.address] == c.size
    {
      assert c == b || Clear(b, c);
    }
  }

  lemma {:induction false} StepKeepsInv(w: World, e: Event)
    requires Inv(w) && Allowed(w, e)
    ensures Inv(Step(w, e))
  {
    match e
    case Allocate(size, base) => AllocateKeeps(w, size, base);
    case Free(block) => FreeKeeps(w, block);
    case Reset(base) => ResetKeeps(w.state.regions, w.state.sizing, base);
    case Fill(block, words) => FillKeeps(w, block, words);
  }

  /**
   In every run of allocations of any size, valid frees, writes into own blocks and resets, live blocks stay
   apart and inside a region.
   */
  lemma {:induction false} RunKeepsInv(w: World, es: seq<Event>)
    requires Inv(w) && AllowedRun(w, es)
    ensures Inv(Run(w, es))
    decreases |es|
  {
    if es != [] {
      StepKeepsInv(w, es[0]);
      RunKeepsInv(Step(w, es[0]), es[1..]);
    }
  }

  lemma {:induction false} NewIsGood(size: nat, base: nat)
    requires HEADER <= base
    ensures Inv(World(State(if size > 0 then Grown([], base, size) else [], size, map[]), {}))
    ensures Sized(if size > 0 then Grown([], base, size) else [], size)
  {
  }

  lemma {:induction false} StepKeepsSized(w: World, e: Event)
    requires Sized(w.state.regions, w.state.sizing) && Allowed(w, e)
    ensures Sized(Step(w, e).state.regions, Step(w, e).state.sizing)
  {
    if e.Reset? {
      ResetLeavesOne(w.state.regions, w.state.sizing, e.base);
    }
  }

  /** After any run `reset` leaves one free region with all the room there was. */
  lemma {:induction false} RunThenReset(w: World, es: seq<Event>, base: nat)
    requires Sized(w.state.regions, w.state.sizing) && AllowedRun(w, es)
    ensures var s := Run(w, es).state;
            var r := WasReset(s, base).regions;
            if s.regions == [] then r == []
            else |r| == 1 && r[0].size == Total(s.regions) && r[0].free == r[0].base
    decreases |es|
  {
    if es == [] {
      ResetLeavesOne(w.state.regions, w.state.sizing, base);
    } else {
      StepKeepsSized(w, es[0]);
      RunThenReset(Step(w, es[0]), es[1..], base);
    }
  }

  // ---------------------------------------------------------------------
  // Last in, first out
  // ---------------------------------------------------------------------

  /** Allocate, do `inner`, free, go on with `after`. */
  datatype Nest = Done | Use(size: nat, inner: Nest, after: Nest)

  /** The most bytes a nest holds at any time. */
  function Peak(n: Nest): nat
  {
    if n.Done? then 0
    else
      var held := n.size + WORD + Peak(n.inner);
      if held < Peak(n.after) then Peak(n.after) else held
  }

  /** Doing a nest; `supply` gives the addresses of regions that are asked for on the way. */
  function Exec(s: State, n: Nest, supply: State -> nat): (r: State)
    ensures |r.regions| >= |s.regions|
    decreases n
  {
    if n.Done? then s
    else
      var inner := Exec(Allocated(s, n.size, supply(s)), n.inner, supply);
      Exec(Freed(inner, Taken(s, n.size, supply(s)).address + WORD), n.after, supply)
  }

  ghost predicate SameBelow(words: map<nat, nat>, words': map<nat, nat>, limit: nat)
  {
    forall k: nat :: k < limit && k in words ==> k in words' && words'[k] == words[k]
  }

  /** An allocation that fits, then anything that restores the regions and leaves the size word alone, then the free. */
  lemma {:induction false} TakenAndFreed(s: State, size: nat, base: nat, s2: State)
    requires s.regions != [] && size + WORD <= Left(s.regions)
    ensures var s1 := Allocated(s, size, base);
            s1.regions != [] && |s1.regions| == |s.regions| && Left(s1.regions) == Left(s.regions) - (size + WORD)
            && (s2.regions == s1.regions && SameBelow(s1.words, s2.words, Bottom(s1.regions).free) ==>
                  var s3 := Freed(s2, Taken(s, size, base).address + WORD);
                  s3.regions == s.regions && SameBelow(s.words, s3.words, Bottom(s.regions).free))
  {
    var at, s1 := Bottom(s.regions).free, Allocated(s, size, base);
    assert at in s1.words && s1.words[at] == size + WORD;
    assert MovedTo(s1.regions, at) == s.regions;
  }

  lemma {:induction false} FitRestores(s: State, n: Nest, supply: State -> nat)
    requires s.regions != [] && Peak(n) <= Left(s.regions)
    ensures Exec(s, n, supply).regions == s.regions
    ensures SameBelow(s.words, Exec(s, n, supply).words, Bottom(s.regions).free)
    decreases n
  {
    hide Allocated, Taken, Freed;
    if n.Use? {
      var s1 := Allocated(s, n.size, supply(s));
      var s2 := Exec(s1, n.inner, supply);
      TakenAndFreed(s, n.size, supply(s), s2);
      FitRestores(s1, n.inner, supply);
      FitRestores(Freed(s2, Taken(s, n.size, supply(s)).address + WORD), n.after, supply);
    }
  }

  lemma {:induction false} AllocatedGrows(s: State, size: nat, base: nat)
    requires s.regions != [] && size + WORD > Left(s.regions)
    ensures |Allocated(s, size, base).regions| > |s.regions|
  {
  }

  lemma {:induction false} FreedKeepsCount(s: State, address: nat)
    requires s.regions != []
    ensures |Freed(s, address).regions| == |s.regions|
  {
  }

  lemma {:induction false} OverflowGrows(s: State, n: Nest, supply: State -> nat)
    requires s.regions != [] && Peak(n) > Left(s.regions) >= 0
    ensures |Exec(s, n, supply).regions| > |s.regions|
    decreases n
  {
    hide Allocated, Taken, Freed, SameBelow;
    var s1 := Allocated(s, n.size, supply(s));
    var s2 := Exec(s1, n.inner, supply);
    var s3 := Freed(s2, Taken(s, n.size, supply(s)).address + WORD);
    FreedKeepsCount(s2, Taken(s, n.size, supply(s)).address + WORD);
    if n.size + WORD > Left(s.regions) {
      AllocatedGrows(s, n.size, supply(s));
    } else {
      TakenAndFreed(s, n.size, supply(s), s2);
      if Peak(n.inner) > Left(s1.regions) {
        OverflowGrows(s1, n.inner, supply);
      } else {
        FitRestores(s1, n.inner, supply);
        OverflowGrows(s3, n.after, supply);
      }
    }
  }

  /**
   Last-in-first-out use restores the regions and the free address exactly when all of it fits in the bottom
   region.
   */
  lemma {:induction false} RestoredExactlyWhen(s: State, n: Nest, supply: State -> nat)
    requires s.regions != [] && Left(s.regions) >= 0
    ensures Exec(s, n, supply).regions == s.regions <==> Peak(n) <= Left(s.regions)
  {
    if Peak(n) <= Left(s.regions) {
      FitRestores(s, n, supply);
    } else {
      OverflowGrows(s, n, supply);
    }
  }
}
