/**
 * `linear_allocator`: bytes are cut off the bottom region, and only the latest allocation can be taken back.
 */
module LinearAllocator {
  import opened Regions

  datatype State = State(regions: seq<Region>, latest: nat, sizing: nat)

  // ---------------------------------------------------------------------
  // Operations
  // ---------------------------------------------------------------------

  function Allocated(s: State, size: nat, base: nat): State
  {
    var rs := Roomy(s.regions, size, base);
    State(MovedTo(rs, Bottom(rs).free + size), size, s.sizing)
  }

  function AddressOf(s: State, size: nat, base: nat): nat
  {
    Bottom(Roomy(s.regions, size, base)).free
  }

  function Freed(s: State, address: nat): State
    requires s.regions != []
  {
    if Bottom(s.regions).free - s.latest == address then State(MovedTo(s.regions, address), 0, s.sizing) else s
  }

  function WasReset(s: State, base: nat): State
  {
    var (rs, sizing) := ResetRegions(s.regions, s.sizing, base);
    State(rs, s.latest, sizing)
  }

  class Allocator {
    var regions: seq<Region>
    var latestSize: nat
    var sizing: nat

    function Abstract(): State
      reads this
    {
      State(regions, latestSize, sizing)
    }

    constructor (size: nat, base: nat)
      ensures Abstract() == State(if size > 0 then Grown([], base, size) else [], 0, size)
    {
      latestSize := 0;
      sizing := size;
      regions := if size > 0 then Grown([], base, size) else [];
    }

    /** At most one region is asked for: the one made for a request has room for it. */
    method Allocate(size: nat, base: nat) returns (address: nat)
      modifies this
      ensures Abstract() == Allocated(old(Abstract()), size, base)
      ensures address == AddressOf(old(Abstract()), size, base)
      ensures old(regions) != [] && Left(old(regions)) >= size ==>
                |regions| == |old(regions)| && address == Bottom(old(regions)).free
      ensures old(regions) == [] || Left(old(regions)) < size ==>
                |regions| == |old(regions)| + 1 && address == base && Bottom(regions).size == size
      ensures Bottom(regions).free == address + size && latestSize == size
    {
      if regions == [] {
        regions := Grown(regions, base, size);
      }
      while Left(regions) < size
        invariant regions != []
        invariant latestSize == old(latestSize) && sizing == old(sizing)
        invariant NeedsRegion(old(regions), size) ==>
                regions == old(regions) || regions == Grown(old(regions), base, size)
        invariant !NeedsRegion(old(regions), size) ==> regions == old(regions)
        decreases size - Left(regions)
      {
        regions := Grown(regions, base, size);
      }
      address := Bottom(regions).free;
      regions := regions[|regions| - 1 := Bottom(regions).(free := address + size)];
      latestSize := size;
    }

    method Free(address: nat)
      requires regions != []
      modifies this
      ensures Abstract() == Freed(old(Abstract()), address)
      ensures if Bottom(old(regions)).free - old(latestSize) == address
              then regions[..|regions| - 1] == old(regions)[..|old(regions)| - 1] && latestSize == 0
                   && Bottom(regions) == Bottom(old(regions)).(free := address)
              else Abstract() == old(Abstract())
    {
      if Bottom(regions).free - latestSize == address {
        regions := regions[|regions| - 1 := Bottom(regions).(free := address)];
        latestSize := 0;
      }
    }

    method Reset(base: nat) returns (released: seq<int>)
      modifies this
      ensures Abstract() == WasReset(old(Abstract()), base)
      ensures if Total(old(regions)) > old(sizing) then |released| == |old(regions)| else released == []
      ensures forall i :: 0 <= i < |released| ==> released[i] == old(regions)[|released| - 1 - i].base - 40
    {
      regions, sizing, released := ResetList(regions, sizing, base);
    }
  }

  // ---------------------------------------------------------------------
  // Runs
  // ---------------------------------------------------------------------

  /** Blocks without bytes share addresses with others, so live blocks are counted. */
  datatype World = World(state: State, live: multiset<Block>)

  datatype Event =
    | Allocate(size: nat, base: nat)
    | Free(block: Block)
    | Reset(base: nat)

  /** What callers and the system owe: frees of live blocks, and addresses for regions that nothing else uses. */
  ghost predicate Allowed(w: World, e: Event)
  {
    match e
    case Allocate(size, base) => NeedsRegion(w.state.regions, size) ==> FreshAt(w.state.regions, base, size)
    case Free(block) => block in w.live && w.state.regions != []
    case Reset(base) => HEADER <= base
  }

  ghost function Step(w: World, e: Event): World
    requires Allowed(w, e)
  {
    match e
    case Allocate(size, base) =>
      World(Allocated(w.state, size, base), w.live + multiset{Block(AddressOf(w.state, size, base), size)})
    case Free(block) => World(Freed(w.state, block.address), w.live - multiset{block})
    case Reset(base) => World(WasReset(w.state, base), multiset{})
  }

  ghost predicate AllowedRun(w: World, es: seq<Event>)
    decreases |es|
  {
    es != [] ==> Allowed(w, es[0]) && AllowedRun(Step(w, es[0]), es[1..])
  }

  ghost function Run(w: World, es: seq<Event>): World
    requires AllowedRun(w, es)
    decreases |es|
  {
    if es == [] then w else Run(Step(w, es[0]), es[1..])
  }

  ghost function Filled(live: multiset<Block>): set<Block>
  {
    set b | b in live && b.size > 0
  }

  ghost predicate Single(live: multiset<Block>)
  {
    forall b :: b in live && b.size > 0 ==> live[b] == 1
  }

  /** Live blocks that have bytes are pairwise disjoint and inside one region. */
  ghost predicate Sane(w: World)
  {
    Regular(w.state.regions) && Holding(w.state.regions, Filled(w.live)) && Single(w.live)
  }

  /**
   The latest allocation, unless it was taken back or the allocator was reset since, is live and ends at the free
   address.
   */
  ghost predicate LatestLive(w: World)
  {
    w.live == multiset{} || w.state.latest == 0
    || (w.state.regions != [] && w.state.latest <= Bottom(w.state.regions).free
        && Block(Bottom(w.state.regions).free - w.state.latest, w.state.latest) in w.live)
  }

  ghost predicate Good(w: World)
  {
    Sane(w) && LatestLive(w)
  }

  // ---------------------------------------------------------------------
  // Allocating
  // ---------------------------------------------------------------------

  lemma {:induction false} FilledMore(live: multiset<Block>, b: Block)
    requires Single(live) && (b.size > 0 ==> b !in live)
    ensures Single(live + multiset{b})
    ensures Filled(live + multiset{b}) == if b.size > 0 then Filled(live) + {b} else Filled(live)
  {
    var more := live + multiset{b};
    assert forall c :: c in more <==> c in live || c == b;
    assert forall c :: c in live && c != b ==> more[c] == live[c];
  }

  lemma {:induction false} FilledLess(live: multiset<Block>, b: Block)
    requires Single(live) && b in live
    ensures Single(live - multiset{b})
    ensures Filled(live - multiset{b}) == Filled(live) - {b}
    ensures forall c :: c in live && c != b ==> c in live - multiset{b}
  {
    var less := live - multiset{b};
    assert forall c :: c != b ==> less[c] == live[c];
    assert less[b] == live[b] - 1;
  }

  lemma {:induction false} AllocateKeeps(w: World, size: nat, base: nat)
    requires Good(w) && Allowed(w, Allocate(size, base))
    ensures Good(Step(w, Allocate(size, base)))
    ensures size > 0 ==> Block(AddressOf(w.state, size, base), size) !in w.live
  {
    hide Regular, Holding, FreshAt, Single, Filled;
    var rs, filled := Roomy(w.state.regions, size, base), Filled(w.live);
    if NeedsRegion(w.state.regions, size) {
      GrownKeeps(w.state.regions, filled, base, size);
    }
    var b := Block(Bottom(rs).free, size);
    if size > 0 {
      CutKeeps(rs, filled, size);
      NotFilled(w.live, b);
    } else {
      assert MovedTo(rs, Bottom(rs).free) == rs;
    }
    FilledMore(w.live, b);
    assert b in w.live + multiset{b};
  }

  /** The latest allocation, freed at once, leaves the regions as they were, one region more if it needed one. */
  lemma {:induction false} AllocateThenFree(s: State, size: nat, base: nat)
    ensures var t := Freed(Allocated(s, size, base), AddressOf(s, size, base));
            t.latest == 0 && t.sizing == s.sizing
            && t.regions == if NeedsRegion(s.regions, size) then Grown(s.regions, base, size) else s.regions
  {
    var rs := Roomy(s.regions, size, base);
    assert MovedTo(MovedTo(rs, Bottom(rs).free + size), Bottom(rs).free) == rs;
  }

  lemma {:induction false} NotFilled(live: multiset<Block>, b: Block)
    requires b.size > 0 && forall c :: c in Filled(live) ==> c.address != b.address
    ensures b !in live
  {
    assert b in live ==> b in Filled(live);
  }

  // ---------------------------------------------------------------------
  // Freeing
  // ---------------------------------------------------------------------

  /** The guard of `free` takes an empty block for the latest allocation, which starts at the same address. */
  ghost predicate Clash(w: World, b: Block)
    requires w.state.regions != []
  {
    b.size == 0 && w.state.latest > 0 && Bottom(w.state.regions).free - w.state.latest == b.address
  }

  lemma {:induction false} HoldingLess(rs: seq<Region>, live: set<Block>, b: Block)
    requires Holding(rs, live)
    ensures Holding(rs, live - {b})
  {
  }

  /**
   Freeing a live block keeps the live blocks apart and inside if and only if it is not mistaken for the latest
   allocation.
   */
  lemma {:induction false} FreeExactlyWhen(w: World, b: Block)
    requires Good(w) && Allowed(w, Free(b))
    ensures Sane(Step(w, Free(b))) <==> !Clash(w, b)
    ensures Good(Step(w, Free(b))) <==> !Clash(w, b)
  {
    hide Regular, Holding, Single, Filled;
    var rs, latest := w.state.regions, w.state.latest;
    FilledLess(w.live, b);
    HoldingLess(rs, Filled(w.live), b);
    if Bottom(rs).free - latest == b.address {
      if latest == 0 {
        assert MovedTo(rs, b.address) == rs;
      } else {
        TopTakenBack(rs, w.live, latest, b);
      }
    }
  }

  /** When the guard holds, what moves is the latest block: right if it is the one freed, wrong if an empty one is. */
  lemma {:induction false} TopTakenBack(rs: seq<Region>, live: multiset<Block>, latest: nat, b: Block)
    requires rs != [] && Regular(rs) && Holding(rs, Filled(live)) && Single(live) && b in live
    requires 0 < latest && Bottom(rs).free - latest == b.address && Block(b.address, latest) in live
    ensures Regular(MovedTo(rs, b.address))
    ensures Holding(MovedTo(rs, b.address), Filled(live - multiset{b})) <==> b.size > 0
  {
    hide Regular, Single;
    var top := Block(b.address, latest);
    assert top in Filled(live);
    TakenBackKeeps(rs, Filled(live), top);
    FilledLess(live, b);
    if b.size > 0 {
      assert b == top || Clear(b, top);
    } else {
      BehindFree(MovedTo(rs, b.address), Filled(live - multiset{b}), top);
    }
  }

  lemma {:induction false} BehindFree(rs: seq<Region>, live: set<Block>, b: Block)
    requires Regular(rs) && rs != [] && b in live && b.address == Bottom(rs).free
    ensures !Holding(rs, live)
  {
    if Holding(rs, live) {
      assert Sound(Bottom(rs));
      HomeRegion(rs, live, b);
      assert false;
    }
  }

  // ---------------------------------------------------------------------
  // Exactly which runs are sane
  // ---------------------------------------------------------------------

  ghost predicate Mistaken(w: World, e: Event)
    requires Allowed(w, e)
  {
    e.Free? && Clash(w, e.block)
  }

  lemma {:induction false} StepSaneExactlyWhen(w: World, e: Event)
    requires Good(w) && Allowed(w, e)
    ensures Sane(Step(w, e)) <==> !Mistaken(w, e)
    ensures Good(Step(w, e)) <==> !Mistaken(w, e)
  {
    hide Regular, Holding;
    match e
    case Allocate(size, base) => AllocateKeeps(w, size, base);
    case Free(block) => FreeExactlyWhen(w, block);
    case Reset(base) =>
      ResetKeeps(w.state.regions, w.state.sizing, base);
      assert Filled(multiset{}) == {};
  }

  /** Sane now and after every event of the run. */
  ghost predicate SaneAlong(w: World, es: seq<Event>)
    requires AllowedRun(w, es)
    decreases |es|
  {
    Sane(w) && (es != [] ==> SaneAlong(Step(w, es[0]), es[1..]))
  }

  ghost predicate NothingMistaken(w: World, es: seq<Event>)
    requires AllowedRun(w, es)
    decreases |es|
  {
    es != [] ==> !Mistaken(w, es[0]) && NothingMistaken(Step(w, es[0]), es[1..])
  }

  /**
   * In every run of allocations of any size, frees of live blocks and resets, the live blocks stay apart and
   * inside a region if and only if no empty block is freed while the latest allocation starts at its address.
   */
  lemma {:induction false} RunSaneExactlyWhen(w: World, es: seq<Event>)
    requires Good(w) && AllowedRun(w, es)
    ensures SaneAlong(w, es) <==> NothingMistaken(w, es)
    decreases |es|
  {
    hide Sane, Mistaken;
    assert Sane(w);
    if es != [] {
      StepSaneExactlyWhen(w, es[0]);
      var w' := Step(w, es[0]);
      if !Mistaken(w, es[0]) {
        RunSaneExactlyWhen(w', es[1..]);
      } else {
        NotSaneAlong(w', es[1..]);
      }
    }
  }

  lemma {:induction false} NotSaneAlong(w: World, es: seq<Event>)
    requires AllowedRun(w, es) && !Sane(w)
    ensures !SaneAlong(w, es)
  {
  }

  predicate NonZero(e: Event)
  {
    e.Allocate? ==> e.size > 0
  }

  ghost predicate NoEmpty(live: multiset<Block>)
  {
    forall b :: b in live ==> b.size > 0
  }

  lemma {:induction false} NonZeroKeeps(w: World, e: Event)
    requires NoEmpty(w.live) && Allowed(w, e) && NonZero(e)
    ensures NoEmpty(Step(w, e).live) && !Mistaken(w, e)
  {
    match e
    case Allocate(size, base) =>
      var b := Block(AddressOf(w.state, size, base), size);
      assert forall c :: c in w.live + multiset{b} <==> c in w.live || c == b;
    case Free(block) =>
      assert forall c :: c in w.live - multiset{block} ==> c in w.live;
    case Reset(base) =>
  }

  /** So every run of nonzero allocations is sane: all its live blocks are disjoint and inside one region. */
  lemma {:induction false} RunKeepsInv(w: World, es: seq<Event>)
    requires Good(w) && NoEmpty(w.live) && AllowedRun(w, es) && forall i :: 0 <= i < |es| ==> NonZero(es[i])
    ensures Good(Run(w, es)) && NoEmpty(Run(w, es).live) && SaneAlong(w, es)
    decreases |es|
  {
    hide Good, NoEmpty, Mistaken;
    RunSaneExactlyWhen(w, es);
    if es != [] {
      NonZeroKeeps(w, es[0]);
      StepSaneExactlyWhen(w, es[0]);
      RunKeepsInv(Step(w, es[0]), es[1..]);
      RunSaneExactlyWhen(Step(w, es[0]), es[1..]);
    }
  }

  lemma {:induction false} NewIsGood(size: nat, base: nat)
    requires HEADER <= base
    ensures Good(World(State(if size > 0 then Grown([], base, size) else [], 0, size), multiset{}))
    ensures Sized(if size > 0 then Grown([], base, size) else [], size)
  {
  }

  /**
   * The failing runs, from every good world with room for n bytes: an empty allocation, then one of n bytes at the
   * same address, then freeing the empty one takes the n bytes back while they are live, and the next n bytes
   * overlap them.
   */
  lemma {:induction false} EmptyBlocksBreak(w: World, n: nat, base: nat)
    requires Good(w) && w.state.regions != [] && 0 < n <= Left(w.state.regions)
    ensures var a := Bottom(w.state.regions).free;
            var es := [Allocate(0, base), Allocate(n, base), Free(Block(a, 0))];
            AllowedRun(w, es)
            && var w' := Run(w, es);
               Block(a, n) in w'.live && AddressOf(w'.state, n, base) == a && !Sane(w')
  {
    hide Regular, Holding, FreshAt, Sane, LatestLive;
    var rs, a := w.state.regions, Bottom(w.state.regions).free;
    var w1 := Step(w, Allocate(0, base));
    AllocateKeeps(w, 0, base);
    assert w1.state.regions == rs;
    var w2 := Step(w1, Allocate(n, base));
    AllocateKeeps(w1, n, base);
    assert Block(a, 0) in w1.live && Block(a, 0) in w2.live && Block(a, n) in w2.live;
    var w3 := Step(w2, Free(Block(a, 0)));
    assert w3.state.regions == rs;
    FreeExactlyWhen(w2, Block(a, 0));
    RunOfThree(w, Allocate(0, base), Allocate(n, base), Free(Block(a, 0)));
  }

  lemma {:induction false} RunOfThree(w: World, e: Event, f: Event, g: Event)
    requires Allowed(w, e) && Allowed(Step(w, e), f) && Allowed(Step(Step(w, e), f), g)
    ensures AllowedRun(w, [e, f, g]) && Run(w, [e, f, g]) == Step(Step(Step(w, e), f), g)
  {
    hide Step, Allowed;
    var es := [e, f, g];
    assert es[1..] == [f, g] && [f, g][1..] == [g] && [g][1..] == [];
    var w1 := Step(w, e);
    var w2 := Step(w1, f);
    assert AllowedRun(w2, [g]) && Run(w2, [g]) == Step(w2, g);
    assert AllowedRun(w1, [f, g]) && Run(w1, [f, g]) == Run(w2, [g]);
  }

  // ---------------------------------------------------------------------
  // Reset
  // ---------------------------------------------------------------------

  lemma {:induction false} StepKeepsSized(w: World, e: Event)
    requires Sized(w.state.regions, w.state.sizing) && Allowed(w, e)
    ensures Sized(Step(w, e).state.regions, Step(w, e).state.sizing)
  {
    match e
    case Allocate(size, base) =>
    case Free(block) =>
    case Reset(base) => ResetLeavesOne(w.state.regions, w.state.sizing, base);
  }

  /** After any run, empty allocations included, `reset` leaves one free region with all the room there was. */
  lemma {:induction false} RunThenReset(w: World, es: seq<Event>, base: nat)
    requires Sized(w.state.regions, w.state.sizing) && AllowedRun(w, es)
    ensures var s := Run(w, es).state;
            var r := WasReset(s, base).regions;
            if s.regions == [] then r == []
            else |r| == 1 && r[0].size == Total(s.regions) && r[0].free == r[0].base
    decreases |es|
  {
    if es == [] {
      ResetLeavesOne(w.state.regions, w.state.sizing, base);
    } else {
      StepKeepsSized(w, es[0]);
      RunThenReset(Step(w, es[0]), es[1..], base);
    }
  }
}
