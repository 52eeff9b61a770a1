/**
 * Region lists of the local allocators: each region is a run of bytes behind its own header,
 * handed out from the bottom region's free address. Addresses come from the system's allocator and are parameters.
 */
module Regions {

  /** Size of the `region` record in front of a region's bytes. */
  const HEADER: nat := 40

  datatype Region = Region(base: nat, size: nat, free: nat)

  /** Bytes handed out to a caller. */
  datatype Block = Block(address: nat, size: nat)

  // ---------------------------------------------------------------------
  // Shape
  // ---------------------------------------------------------------------

  predicate Sound(r: Region)
  {
    HEADER <= r.base <= r.free <= r.base + r.size
  }

  /** Two regions do not overlap, headers included. */
  predicate Apart(r: Region, q: Region)
  {
    r.base + r.size <= q.base - HEADER || q.base + q.size <= r.base - HEADER
  }

  ghost predicate Regular(rs: seq<Region>)
  {
    (forall i :: 0 <= i < |rs| ==> Sound(rs[i]))
    && (forall i, j :: 0 <= i < j < |rs| ==> Apart(rs[i], rs[j]))
  }

  /** The system hands out addresses that overlap no region in use. */
  ghost predicate FreshAt(rs: seq<Region>, base: nat, size: nat)
  {
    HEADER <= base && forall i :: 0 <= i < |rs| ==> Apart(rs[i], Region(base, size, base))
  }

  predicate Inside(b: Block, r: Region)
  {
    r.base <= b.address && b.address + b.size <= r.free
  }

  predicate Clear(b: Block, c: Block)
  {
    b.address + b.size <= c.address || c.address + c.size <= b.address
  }

  /** Every live block has bytes, lies in the handed-out part of one region, and overlaps no other. */
  ghost predicate Holding(rs: seq<Region>, live: set<Block>)
  {
    (forall b :: b in live ==> b.size > 0 && exists i :: 0 <= i < |rs| && Inside(b, rs[i]))
    && (forall b, c :: b in live && c in live && b != c ==> Clear(b, c))
  }

  // ---------------------------------------------------------------------
  // Operations
  // ---------------------------------------------------------------------

  function Bottom(rs: seq<Region>): Region
    requires rs != []
  {
    rs[|rs| - 1]
  }

  function Left(rs: seq<Region>): int
    requires rs != []
  {
    Bottom(rs).base + Bottom(rs).size - Bottom(rs).free
  }

  /** `next_region`. */
  function Grown(rs: seq<Region>, base: nat, size: nat): seq<Region>
  {
    rs + [Region(base, size, base)]
  }

  predicate NeedsRegion(rs: seq<Region>, size: nat)
  {
    rs == [] || Left(rs) < size
  }

  /** The regions in which an allocation of `size` bytes finds room. */
  function Roomy(rs: seq<Region>, size: nat, base: nat): (r: seq<Region>)
    ensures r != [] && Left(r) >= size
  {
    if NeedsRegion(rs, size) then Grown(rs, base, size) else rs
  }

  function MovedTo(rs: seq<Region>, free: nat): seq<Region>
    requires rs != []
  {
    rs[|rs| - 1 := Bottom(rs).(free := free)]
  }

  function Total(rs: seq<Region>): nat
  {
    if rs == [] then 0 else Total(rs[..|rs| - 1]) + rs[|rs| - 1].size
  }

  function Rewound(rs: seq<Region>): (r: seq<Region>)
    ensures |r| == |rs| && forall i :: 0 <= i < |rs| ==> r[i] == rs[i].(free := rs[i].base)
  {
    if rs == [] then [] else Rewound(rs[..|rs| - 1]) + [rs[|rs| - 1].(free := rs[|rs| - 1].base)]
  }

  /** The regions and the sizing that `reset` leaves. */
  function ResetRegions(rs: seq<Region>, sizing: nat, base: nat): (seq<Region>, nat)
  {
    if Total(rs) > sizing then ([Region(base, Total(rs), base)], Total(rs)) else (Rewound(rs), sizing)
  }

  /** The walk of `reset` from the top region to the bottom one. */
  method Rewind(rs: seq<Region>) returns (total: nat, r: seq<Region>)
    ensures total == Total(rs) && r == Rewound(rs)
  {
    total, r := 0, [];
    var i := 0;
    while i < |rs|
      invariant 0 <= i <= |rs| && total == Total(rs[..i]) && |r| == i
      invariant forall j :: 0 <= j < i ==> r[j] == rs[j].(free := rs[j].base)
    {
      assert rs[..i + 1][..i] == rs[..i];
      total, r := total + rs[i].size, r + [rs[i].(free := rs[i].base)];
      i := i + 1;
    }
    assert rs[..|rs|] == rs;
  }

  /** The walk of `flush_regions` from the bottom region to the top one: the addresses given back to the system. */
  method Flush(rs: seq<Region>) returns (released: seq<int>)
    ensures |released| == |rs| && forall i :: 0 <= i < |rs| ==> released[i] == rs[|rs| - 1 - i].base - 40
  {
    released := [];
    var n := |rs|;
    while n > 0
      invariant 0 <= n <= |rs| && |released| == |rs| - n
      invariant forall i :: 0 <= i < |released| ==> released[i] == rs[|rs| - 1 - i].base - HEADER
    {
      n := n - 1;
      released := released + [rs[n].base - HEADER];
    }
  }

  /**
   `reset`: every region is rewound, and if they have come to more than the configured size, one takes their
   place.
   */
  method ResetList(rs: seq<Region>, sizing: nat, base: nat) returns (r: seq<Region>, sizing': nat, released: seq<int>)
    ensures (r, sizing') == ResetRegions(rs, sizing, base)
    ensures Total(rs) <= sizing ==>
              |r| == |rs| && sizing' == sizing
              && forall i :: 0 <= i < |rs| ==> r[i] == Region(rs[i].base, rs[i].size, rs[i].base)
    ensures Total(rs) > sizing ==> r == [Region(base, Total(rs), base)] && sizing' == Total(rs)
    ensures |released| == if Total(rs) > sizing then |rs| else 0
    ensures forall i :: 0 <= i < |released| ==> released[i] == rs[|released| - 1 - i].base - 40
  {
    var total;
    total, r := Rewind(rs);
    sizing', released := sizing, [];
    if total > sizing {
      sizing' := total;
      released := Flush(r);
      r := Grown([], base, sizing');
      assert r == [Region(base, sizing', base)];
    }
  }

  // ---------------------------------------------------------------------
  // What each change keeps
  // ---------------------------------------------------------------------

  lemma {:induction false} GrownKeeps(rs: seq<Region>, live: set<Block>, base: nat, size: nat)
    requires Regular(rs) && Holding(rs, live) && FreshAt(rs, base, size)
    ensures Regular(Grown(rs, base, size)) && Holding(Grown(rs, base, size), live)
  {
    var g := Grown(rs, base, size);
    forall b | b in live
      ensures exists i :: 0 <= i < |g| && Inside(b, g[i])
    {
      var i :| 0 <= i < |rs| && Inside(b, rs[i]);
      assert Inside(b, g[i]);
    }
  }

  /** A live block that starts at or ends at the bottom's free address, or behind it, is not in another region. */
  lemma {:induction false} HomeRegion(rs: seq<Region>, live: set<Block>, b: Block)
    requires rs != [] && Regular(rs) && Holding(rs, live) && b in live
    requires Bottom(rs).base <= b.address <= Bottom(rs).base + Bottom(rs).size
             || Bottom(rs).base <= b.address + b.size <= Bottom(rs).base + Bottom(rs).size
    ensures Inside(b, Bottom(rs))
  {
    var i :| 0 <= i < |rs| && Inside(b, rs[i]);
    assert Sound(rs[i]) && Sound(Bottom(rs));
    assert i == |rs| - 1 || Apart(rs[i], Bottom(rs));
  }

  lemma {:induction false} RegularMoved(rs: seq<Region>, free: nat)
    requires rs != [] && Regular(rs) && Bottom(rs).base <= free <= Bottom(rs).base + Bottom(rs).size
    ensures Regular(MovedTo(rs, free))
  {
    var m := MovedTo(rs, free);
    forall i, j | 0 <= i < j < |m|
      ensures Apart(m[i], m[j])
    {
      assert Apart(rs[i], rs[j]);
    }
    forall i | 0 <= i < |m|
      ensures Sound(m[i])
    {
      assert Sound(rs[i]);
    }
  }

  /** A live block lies in the handed-out part of its region also after the bottom's free address moved up. */
  lemma {:induction false} StaysInside(rs: seq<Region>, live: set<Block>, free: nat, b: Block)
    requires rs != [] && Holding(rs, live) && b in live && Bottom(rs).free <= free
    ensures exists i :: 0 <= i < |rs| && Inside(b, MovedTo(rs, free)[i])
  {
    var i :| 0 <= i < |rs| && Inside(b, rs[i]);
    assert Inside(b, MovedTo(rs, free)[i]);
  }

  lemma {:induction false} CutIsClear(rs: seq<Region>, live: set<Block>, size: nat, b: Block)
    requires rs != [] && Regular(rs) && Holding(rs, live) && b in live && 0 < size <= Left(rs)
    ensures Clear(b, Block(Bottom(rs).free, size)) && b.address != Bottom(rs).free
  {
    assert Sound(Bottom(rs));
    var i :| 0 <= i < |rs| && Inside(b, rs[i]);
    assert Sound(rs[i]) && (i == |rs| - 1 || Apart(rs[i], Bottom(rs)));
    assert b.size > 0;
  }

  /** A block cut off the free end overlaps no live one. */
  lemma {:induction false} CutKeeps(rs: seq<Region>, live: set<Block>, size: nat)
    requires rs != [] && Regular(rs) && Holding(rs, live) && 0 < size <= Left(rs)
    ensures var free := Bottom(rs).free;
            var m := MovedTo(rs, free + size);
            Regular(m) && Holding(m, live + {Block(free, size)}) && forall b :: b in live ==> b.address != free
  {
    hide Regular, Holding;
    var free := Bottom(rs).free;
    var m, cut := MovedTo(rs, free + size), Block(free, size);
    BottomSound(rs);
    RegularMoved(rs, free + size);
    forall b | b in live
      ensures Clear(b, cut) && b.address != free && exists i :: 0 <= i < |m| && Inside(b, m[i])
    {
      CutIsClear(rs, live, size, b);
      StaysInside(rs, live, free + size, b);
    }
    assert Inside(cut, m[|m| - 1]);
    HoldingMore(rs, m, live, cut);
  }

  lemma {:induction false} BottomSound(rs: seq<Region>)
    requires rs != [] && Regular(rs)
    ensures Sound(Bottom(rs))
  {
  }

  lemma {:induction false} HoldingMore(rs: seq<Region>, m: seq<Region>, live: set<Block>, cut: Block)
    requires Holding(rs, live) && cut.size > 0 && exists i :: 0 <= i < |m| && Inside(cut, m[i])
    requires forall b :: b in live ==> Clear(b, cut) && exists i :: 0 <= i < |m| && Inside(b, m[i])
    ensures Holding(m, live + {cut})
  {
  }

  /** Taking back a live block that ends at the free address. */
  lemma {:induction false} TakenBackKeeps(rs: seq<Region>, live: set<Block>, b: Block)
    requires rs != [] && Regular(rs) && Holding(rs, live) && b in live && b.address + b.size == Bottom(rs).free
    ensures Bottom(rs).base <= b.address && Regular(MovedTo(rs, b.address))
            && Holding(MovedTo(rs, b.address), live - {b})
  {
    assert Sound(Bottom(rs));
    HomeRegion(rs, live, b);
    RegularMoved(rs, b.address);
    var m := MovedTo(rs, b.address);
    forall c | c in live - {b}
      ensures exists i :: 0 <= i < |m| && Inside(c, m[i])
    {
      var i :| 0 <= i < |rs| && Inside(c, rs[i]);
      assert Clear(b, c);
      assert Inside(c, m[i]);
    }
  }

  lemma {:induction false} RewoundKeeps(rs: seq<Region>)
    requires Regular(rs)
    ensures Regular(Rewound(rs))
  {
    var r := Rewound(rs);
    forall i, j | 0 <= i < j < |r|
      ensures Apart(r[i], r[j])
    {
      assert Apart(rs[i], rs[j]);
    }
    forall i | 0 <= i < |r|
      ensures Sound(r[i])
    {
      assert Sound(rs[i]);
    }
  }

  // ---------------------------------------------------------------------
  // Sizes
  // ---------------------------------------------------------------------

  /** The first region has the configured size, if there is one; later ones were made for a request that had no room. */
  ghost predicate Sized(rs: seq<Region>, sizing: nat)
  {
    (sizing == 0 || (rs != [] && rs[0].size == sizing))
    && (forall i :: 1 <= i < |rs| ==> rs[i].size > 0)
    && (forall i :: 0 <= i < |rs| ==> rs[i].free <= rs[i].base + rs[i].size)
  }

  lemma {:induction false} TotalAtLeast(rs: seq<Region>)
    ensures rs != [] ==> Total(rs) >= rs[0].size
    ensures |rs| > 1 && (forall i :: 1 <= i < |rs| ==> rs[i].size > 0) ==> Total(rs) > rs[0].size
  {
    if |rs| > 1 {
      TotalAtLeast(rs[..|rs| - 1]);
    } else if |rs| == 1 {
      assert rs[..0] == [] && Total(rs) == Total(rs[..0]) + rs[0].size;
    }
  }

  /** A used allocator is left with one region, all free, as large as all its regions were together. */
  lemma {:induction false} ResetLeavesOne(rs: seq<Region>, sizing: nat, base: nat)
    requires Sized(rs, sizing)
    ensures var (r, sizing') := ResetRegions(rs, sizing, base);
            Sized(r, sizing')
            && (rs != [] ==> |r| == 1 && r[0].size == Total(rs) && r[0].free == r[0].base && sizing' == Total(rs))
            && (rs == [] ==> r == [] && sizing' == sizing)
  {
    TotalAtLeast(rs);
    if |rs| == 1 {
      assert rs[..0] == [] && Total(rs) == Total(rs[..0]) + rs[0].size;
    }
  }

  lemma {:induction false} ResetKeeps(rs: seq<Region>, sizing: nat, base: nat)
    requires Regular(rs) && (Total(rs) > sizing ==> HEADER <= base)
    ensures Regular(ResetRegions(rs, sizing, base).0) && Holding(ResetRegions(rs, sizing, base).0, {})
  {
    RewoundKeeps(rs);
  }
}
