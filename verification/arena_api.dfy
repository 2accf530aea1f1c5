/** Arena::AllocateAligned and Arena::AllocateInternal on the calling thread's SerialArena:
    any power-of-two alignment on top of an allocator that only knows multiples of 8. */
module ArenaApi {
  import opened Bits
  import opened ArenaMemory
  import opened ArenaAccounting
  import opened ArenaEffects
  import opened ArenaGrowth
  import opened SerialArenas

  /** The number of bytes asked of the SerialArena. */
  function BytesFor(size: nat, align: nat): (n: nat) {
    if align <= 8 then AlignUpTo8(size) else size + align - 8
  }

  /** The smallest number of words, or the size and what aligning may cost. */
  lemma BytesForExact(size: nat, align: nat)
    requires size + 7 < TWO64
    ensures BytesFor(size, align) == if align <= 8 then (size + 7) / 8 * 8 else size + align - 8
  {
    AlignUpTo8Exact(size);
  }

  ghost predicate PowerOfTwo(align: nat, k: nat) {
    k < 64 && align == Pow2(k)
  }

  /** The padded size is a whole number of words, as the SerialArena demands of its callers,
      for alignments above 8 exactly if the size itself is. */
  lemma BytesForAligned(size: nat, align: nat, k: nat)
    requires size < TWO64 && PowerOfTwo(align, k)
    ensures align <= 8 ==> BytesFor(size, align) % 8 == 0
    ensures align > 8 ==> (BytesFor(size, align) % 8 == 0 <==> size % 8 == 0)
  {
    hide AlignUpTo8, Pow2;
    AlignUpTo8Exact(size);
    if align > 8 {
      var e := MultipleOf8(align, k);
      AddWords(size, e - 1);
    }
  }

  lemma AddWords(size: nat, words: nat)
    ensures (size + 8 * words) % 8 == 0 <==> size % 8 == 0
  {
  }

  lemma MultipleOf8(align: nat, k: nat) returns (e: nat)
    requires PowerOfTwo(align, k) && align >= 8
    ensures align == 8 * e && k >= 3
  {
    if k < 3 {
      assert Pow2(0) == 1 && Pow2(1) == 2 && Pow2(2) == 4;
      assert false;
    }
    e := Pow2IsMultipleOf8(k);
  }

  /** Where the object starts in the bytes allocated for it. */
  function Start(p: nat, align: nat): nat
    requires 0 < align <= TWO64
  {
    if align <= 8 then p else AlignTo(p, align)
  }

  /** The start is aligned and the object fits in what was allocated for it. */
  lemma AlignedFits(p: nat, size: nat, align: nat, k: nat)
    requires size + 7 < TWO64 && p % 8 == 0 && PowerOfTwo(align, k)
    requires align > 8 ==> size % 8 == 0
    requires p + BytesFor(size, align) < TWO64
    ensures 0 < align <= TWO64
    ensures Start(p, align) % align == 0
    ensures p <= Start(p, align) && Start(p, align) + size <= p + BytesFor(size, align)
  {
    if align <= 8 {
      AlignUpTo8Exact(size);
      SmallAlign(p, align, k);
    } else {
      var e := MultipleOf8(align, k);
      assert p + align - 1 < TWO64;
      AlignToExact(p, k);
      AlignToMultipleOf8(p, k);
      FitsAbove8(p, AlignTo(p, align), align, e);
    }
  }

  lemma FitsAbove8(p: nat, q: nat, align: nat, e: nat)
    requires p % 8 == 0 && q % 8 == 0 && align == 8 * e && q < p + align
    ensures q <= p + align - 8
  {
  }

  lemma SmallAlign(p: nat, align: nat, k: nat)
    requires PowerOfTwo(align, k) && align <= 8 && p % 8 == 0
    ensures 0 < align && p % align == 0
  {
    hide Pow2;
    SmallPowers();
    if k > 3 {
      Pow2Monotone(3, k);
    }
    Divides(p, align);
  }

  lemma SmallPowers()
    ensures Pow2(0) == 1 && Pow2(1) == 2 && Pow2(2) == 4 && Pow2(3) == 8
  {
  }

  lemma Divides(p: nat, align: nat)
    requires p % 8 == 0
    ensures align == 1 || align == 2 || align == 4 || align == 8 ==> p % align == 0
  {
    if align == 2 {
      DivModUnique(p, 2, p / 8 * 4, 0);
    } else if align == 4 {
      DivModUnique(p, 4, p / 8 * 2, 0);
    }
  }

  /** The region of an object allocated with an alignment. */
  ghost predicate Holding(regions: set<Region>, r: Region, p: int, size: nat) {
    r in regions && r.role.Live? && r.lo <= p && p + size <= r.hi
  }

  method AllocateAligned(a: SerialArena, size: nat, align: nat, policy: AllocationPolicy, mem: Addr, ghost k: nat)
    returns (p: Addr)
    requires a.Valid() && size + 7 < TWO64 && PowerOfTwo(align, k)
    requires align > 8 ==> size % 8 == 0
    requires a.Backed(BytesFor(size, align), policy, mem)
    modifies a
    ensures a.Valid()
    ensures align > 0 && p % align == 0
    ensures exists r :: Holding(a.m.regions, r, p, size) && forall s :: s in old(a.m).regions ==> Disjoint(s, r)
    ensures LiveUntouched(old(a.cells), a.cells, old(a.m.regions))
    ensures StillGrown(policy, old(a.m).chain, a.m.chain)
    ensures SumUsed(a.m.chain) == SumUsed(old(a.m).chain) + if align <= 8 then (size + 7) / 8 * 8 else size + align - 8
  {
    hide Consistent, Mirrors, Amortised, LiveUntouched, Offers, NextBlockSize, Disjoint, BytesFor, AlignUpTo8,
         AlignTo, PowerOfTwo, StillGrown, SumUsed;
    BytesForAligned(size, align, k);
    BytesForExact(size, align);
    var n := BytesFor(size, align);
    ObjectTotals(a.m, a.limit - a.ptr, n, policy, mem, n);
    p := a.AllocateAligned(n, policy, mem);
    ghost var r := Region(|a.m.chain| - 1, p, p + n, Live);
    RegionBelowTop(a.cells, a.m, r);
    AlignedFits(p, size, align, k);
    p := Start(p, align);
    assert Holding(a.m.regions, r, p, size);
  }

  /** Allocates an object and registers its destructor. */
  method AllocateInternal(a: SerialArena, size: nat, align: nat, destructor: int, policy: AllocationPolicy, mem: Addr,
                          ghost k: nat)
    returns (p: Addr)
    requires a.Valid() && size + 7 < TWO64 && PowerOfTwo(align, k)
    requires align > 8 ==> size % 8 == 0
    requires a.Backed(BytesFor(size, align) + CLEANUP_SIZE, policy, mem)
    modifies a
    ensures a.Valid()
    ensures align > 0 && p % align == 0
    ensures exists r :: Holding(a.m.regions, r, p, size) && forall s :: s in old(a.m).regions ==> Disjoint(s, r)
    ensures Registered(a.m.chain) == Registered(old(a.m).chain) + [Node(p, destructor)]
    ensures LiveUntouched(old(a.cells), a.cells, old(a.m.regions))
    ensures StillGrown(policy, old(a.m).chain, a.m.chain)
    ensures SumUsed(a.m.chain) == SumUsed(old(a.m).chain) + if align <= 8 then (size + 7) / 8 * 8 else size + align - 8
  {
    hide Consistent, Mirrors, Amortised, LiveUntouched, Offers, NextBlockSize, Disjoint, BytesFor, AlignUpTo8, AlignTo,
         Layout, BlockOk, SumUsed, Registered, PowerOfTwo, StillGrown, Noted;
    BytesForAligned(size, align, k);
    BytesForExact(size, align);
    var n := BytesFor(size, align);
    forall q: Addr ensures
        StillGrown(policy, a.m.chain,
                   Noted(WithObject(WithRoom(a.m, a.limit - a.ptr, n + CLEANUP_SIZE, policy, mem), n).chain,
                         Node(q, destructor))) {
      NodeGrows(a.m, a.Regs(), n, Node(q, destructor), policy, mem);
    }
    var start, node := a.AllocateAlignedWithCleanup(n, policy, mem);
    ObjectTotals(old(a.m), old(a.limit - a.ptr), n + CLEANUP_SIZE, policy, mem, n);
    ghost var r := Region(|a.m.chain| - 1, start, start + n, Live);
    RegionBelowTop(a.cells, a.m, r);
    AlignedFits(start, size, align, k);
    p := Start(start, align);
    ghost var cells1, regions1 := a.cells, a.m.regions;
    a.SetCleanup(node, p, destructor);
    LiveUntouchedFewer(cells1, a.cells, regions1, old(a.m.regions));
    LiveUntouchedTwice(old(a.cells), cells1, a.cells, old(a.m.regions));
    assert Holding(a.m.regions, r, p, size);
  }

  lemma RegionBelowTop(cells: Cells, m: Memory, r: Region)
    requires Consistent(cells, m) && r in m.regions
    ensures r.hi < TWO64
  {
    hide HeadersStored, AllNodesStored, ListsStored, FreeListsPlaced, AllBlockRegionsIn, AllDisjoint;
    assert Placed(m.chain, r) && BlockOk(r.block, m.chain[r.block]);
  }
}
