/** SerialArena: a two-ended bump allocator over a growing list of blocks, with cleanup
    nodes and free lists kept inside the memory it manages.

    Where an operation may need a new block, `mem` is the address the backing allocator
    hands out; `Backed` says what is assumed of it. */
module SerialArenas {
  import opened Bits
  import opened ArenaMemory
  import opened ArenaAccounting
  import opened ArenaEffects
  import opened ArenaCaching
  import opened ArenaCleanup
  import opened ArenaGrowth

  /** The memory in which n bytes are bumped: m itself, or m with a new block. */
  ghost function WithRoom(m: Memory, room: int, n: nat, policy: AllocationPolicy, mem: Addr): Memory
    requires |m.chain| > 0
  {
    if n <= room then m
    else WithBlock(m, Block(mem, NextBlockSize(policy, Newest(m.chain).size, n), 0, []))
  }

  class SerialArena {
    var owner: int
    var head: Addr
    var ptr: Addr
    var limit: int
    var spaceUsed: nat
    var spaceAllocated: nat
    var cachedBlockLength: nat
    var cachedBlocks: Addr
    var cells: Cells  // the memory of the blocks, by address
    ghost var m: Memory

    ghost function Regs(): Registers
      reads this
    {
      Registers(head, ptr, limit, spaceUsed, spaceAllocated, cachedBlockLength, cachedBlocks)
    }

    ghost predicate Sound()
      reads this
    {
      Consistent(cells, m) && Mirrors(Regs(), m) && AllListed(m)
    }

    ghost predicate Valid()
      reads this
      ensures Valid() ==> |m.chain| > 0
    {
      Sound() && Amortised(m.chain, 0)
    }

    /** There is room for n bytes, or the backing allocator offers a block for them. */
    ghost predicate Backed(n: nat, policy: AllocationPolicy, mem: Addr)
      reads this
      requires |m.chain| > 0
    {
      n <= limit - ptr
      || (n + BLOCK_HEADER_SIZE < TWO64 && Offers(m.chain, mem, NextBlockSize(policy, Newest(m.chain).size, n)))
    }

    constructor New(base: Addr, size: nat, owner: int)
      requires base > 0 && base % 8 == 0 && base + size < TWO64
      requires size >= BLOCK_HEADER_SIZE + SERIAL_ARENA_SIZE
      ensures Valid() && this.owner == owner
      ensures m.chain == [Block(base, size, 0, [])] && m.lists == [] && m.growths == 0
      ensures m.regions == {HeaderRegion(0, m.chain[0]), EmbeddedRegion(m.chain[0])}
      ensures forall policy :: Grown(policy, size, m.chain)
    {
      hide Grown;
      forall policy ensures Grown(policy, size, First(base, size)) {
        GrownFirst(policy, base, size);
      }
      RoundDownTo8Exact(size);
      this.owner := owner;
      cells := map[base := 0, base + 8 := size, base + 16 := 0];
      head := base;
      ptr := base + BLOCK_HEADER_SIZE + SERIAL_ARENA_SIZE;
      limit := base + RoundDownTo8(size);
      spaceUsed, spaceAllocated := 0, size;
      cachedBlockLength, cachedBlocks := 0, 0;
      var b := Block(base, size, 0, []);
      m := Memory([b], {HeaderRegion(0, b), EmbeddedRegion(b)}, [], EmbeddedRegion(b), 0);
      new;
      assert m.chain == First(base, size);
      assert BlockRegionsIn(0, m.chain[0], m.regions);
      assert HeaderStored(cells, m.chain, 0);
      AppendSplit([], b);
      assert [] + [b] == m.chain;
    }

    /** The difference of the two ends as a size_t: they never cross, so it does not wrap. */
    method HasSpace(n: nat) returns (r: bool)
      requires Valid()
      ensures ptr <= limit && Room(m.chain) == limit - ptr
      ensures r <==> n <= limit - ptr
    {
      hide Consistent, Mirrors, Amortised, AllListed, Room;
      HeaderOfNewest(cells, m, Regs());
      LimitBelowTop(cells, m, Regs());
      var room := (limit - ptr) % TWO64;
      r := n <= room;
    }

    /** Object bytes handed out by bumping so far. */
    method GetSpaceUsed() returns (r: nat)
      requires Valid()
      ensures r == SumUsed(m.chain)
    {
      hide Consistent, TableAge, SumSizes, Amortised;
      HeaderOfNewest(cells, m, Regs());
      NewestShare(m.chain);
      r := ptr - (head + BLOCK_HEADER_SIZE) + spaceUsed - SERIAL_ARENA_SIZE;
    }

    // ----- allocation -----

    method AllocateNewBlock(n: nat, policy: AllocationPolicy, mem: Addr)
      requires Valid() && limit - ptr < n
      requires n + BLOCK_HEADER_SIZE < TWO64
      requires Offers(m.chain, mem, NextBlockSize(policy, Newest(m.chain).size, n))
      modifies this
      ensures Sound() && owner == old(owner)
      ensures m == WithRoom(old(m), old(limit - ptr), n, policy, mem)
      ensures n <= limit - ptr && Amortised(m.chain, n)
      ensures LiveUntouched(old(cells), cells, old(m.regions))
    {
      hide Consistent, Mirrors, LiveUntouched, Offers, NextBlockSize, Amortised;
      HeaderOfNewest(cells, m, Regs());
      ghost var b := Block(mem, NextBlockSize(policy, Newest(m.chain).size, n), 0, []);
      BlockEffect(cells, m, Regs(), b);
      NewBlockAmortised(m, Regs(), b, n);
      MoreListed(m, WithBlock(m, b), HeaderRegion(|m.chain|, b));

      cells := cells[head + 16 := limit];
      var used := ptr - (head + BLOCK_HEADER_SIZE);
      spaceUsed := spaceUsed + used;
      var size := NextBlockSize(policy, cells[head + 8], n);
      spaceAllocated := spaceAllocated + size;
      cells := cells[mem := head][mem + 8 := size][mem + 16 := 0];
      head := mem;
      ptr := head + BLOCK_HEADER_SIZE;
      limit := head + cells[head + 8];
      m := WithBlock(m, b);
    }

    method AllocateFromExisting(n: nat, ghost rest: nat) returns (p: Addr)
      requires Sound() && n % 8 == 0 && n <= limit - ptr && Amortised(m.chain, n + rest)
      modifies this
      ensures Sound() && owner == old(owner) && cells == old(cells) && limit == old(limit) && ptr == old(ptr) + n
      ensures m == WithObject(old(m), n) && Taken(old(m).chain, n) == Region(|m.chain| - 1, p, p + n, Live)
      ensures p % 8 == 0 && Amortised(m.chain, rest)
      ensures forall s :: s in old(m).regions ==> Disjoint(s, Taken(old(m).chain, n))
    {
      hide Consistent, Amortised;
      ObjectEffect(cells, m, Regs(), n);
      ObjectAmortised(m, n, rest);
      MoreListed(m, WithObject(m, n), Taken(m.chain, n));
      hide Mirrors;
      p := ptr;
      ptr := ptr + n;
      m := WithObject(m, n);
    }

    method AllocateAligned(n: nat, policy: AllocationPolicy, mem: Addr) returns (p: Addr)
      requires Valid() && n % 8 == 0 && Backed(n, policy, mem)
      modifies this
      ensures Valid() && owner == old(owner)
      ensures m == WithObject(WithRoom(old(m), old(limit - ptr), n, policy, mem), n)
      ensures Region(|m.chain| - 1, p, p + n, Live) in m.regions && p % 8 == 0
      ensures forall s :: s in old(m).regions ==> Disjoint(s, Region(|m.chain| - 1, p, p + n, Live))
      ensures LiveUntouched(old(cells), cells, old(m.regions))
      ensures StillGrown(policy, old(m).chain, m.chain) && CachedIn(m) == CachedIn(old(m))
    {
      hide Consistent, Mirrors, Offers, NextBlockSize, Disjoint, LiveUntouched, StillGrown, Room, Stop, Fill, AllListed;
      LiveUntouchedSame(cells, m.regions);
      AmortisedMore(m.chain, n);
      ObjectGrows(m, Regs(), n, policy, mem);
      var fits := HasSpace(n);
      if !fits {
        AllocateNewBlock(n, policy, mem);
      }
      p := AllocateFromExisting(n, 0);
    }

    /** Allocates only if the newest block has room. */
    method MaybeAllocateAligned(n: nat) returns (ok: bool, p: Addr)
      requires Valid() && n % 8 == 0
      modifies this
      ensures Valid() && owner == old(owner) && cells == old(cells)
      ensures ok <==> n <= old(limit - ptr)
      ensures ok ==> m == WithObject(old(m), n) && Region(|m.chain| - 1, p, p + n, Live) in m.regions && p % 8 == 0
      ensures ok ==> Taken(old(m).chain, n) == Region(|m.chain| - 1, p, p + n, Live)
      ensures !ok ==> m == old(m) && p == 0
    {
      hide Consistent, Mirrors, Disjoint, Room, Stop, Fill;
      AmortisedMore(m.chain, n);
      ok, p := false, 0;
      var fits := HasSpace(n);
      if fits {
        ok := true;
        p := AllocateFromExisting(n, 0);
      }
    }

    // ----- arrays: the free lists -----

    /** Takes the newest block of the request's list, if there is one; otherwise returns 0. */
    method TryAllocateFromCachedBlock(size: nat) returns (p: Addr)
      requires Valid()
      modifies this
      ensures Valid() && owner == old(owner) && ptr == old(ptr) && limit == old(limit)
      ensures p != 0 <==> size >= 16 && TakeIndex(size) < |old(m).lists| && |old(m).lists[TakeIndex(size)]| > 0
      ensures p != 0 ==> p == HeadOf(old(m).lists[TakeIndex(size)]) && m == WithTaken(old(m), TakeIndex(size), size)
                         && p % 8 == 0 && TakenSlot(old(m), TakeIndex(size), size) in m.regions
      ensures p != 0 ==> Popped(CachedIn(old(m)), CachedIn(m), TakeIndex(size), p)
      ensures p != 0 ==>
                forall s :: s in old(m).regions && s.role.Live? ==>
                  Disjoint(s, TakenSlot(old(m), TakeIndex(size), size))
      ensures p == 0 ==> m == old(m) && cells == old(cells)
      ensures LiveUntouched(old(cells), cells, old(m.regions))
    {
      hide Consistent, LiveUntouched, Disjoint, Amortised, SumUsed, SumSizes, TableAge, Fill, Stop;
      LiveUntouchedSame(cells, m.regions);
      if size < 16 {
        return 0;
      }
      var index := TakeIndex(size);
      if index >= cachedBlockLength {
        return 0;
      }
      HeadFacts(cells, m, Regs(), index);
      p := cells[cachedBlocks + 8 * index];
      if p == 0 {
        return;
      }
      IndexBounds(size, 16);
      TakeEffect(cells, m, Regs(), index, size);
      ListsPlaced(cells, m);
      TakePops(m, index, size);
      hide Mirrors;
      cells := cells[cachedBlocks + 8 * index := cells[p]];
      m := WithTaken(m, index, size);
    }

    /** Allocation for arrays looks through the cached blocks first. */
    method AllocateAlignedForArray(n: nat, policy: AllocationPolicy, mem: Addr) returns (p: Addr)
      requires Valid() && n % 8 == 0 && Backed(n, policy, mem)
      modifies this
      ensures Valid() && owner == old(owner)
      ensures p % 8 == 0
      ensures if n >= 16 && TakeIndex(n) < |old(m).lists| && |old(m).lists[TakeIndex(n)]| > 0
              then p == HeadOf(old(m).lists[TakeIndex(n)]) && m == WithTaken(old(m), TakeIndex(n), n)
              else m == WithObject(WithRoom(old(m), old(limit - ptr), n, policy, mem), n)
      ensures var lists := CachedIn(old(m));
              if n >= 16 && TakeIndex(n) < |lists| && lists[TakeIndex(n)] != []
              then Popped(lists, CachedIn(m), TakeIndex(n), p) else CachedIn(m) == lists
      ensures exists r :: r in m.regions && r.role.Live? && r.lo == p && r.hi == p + n
                          && forall s :: s in old(m).regions && s.role.Live? ==> Disjoint(s, r)
      ensures LiveUntouched(old(cells), cells, old(m.regions))
      ensures StillGrown(policy, old(m).chain, m.chain)
    {
      hide Consistent, Mirrors, LiveUntouched, Disjoint, Offers, NextBlockSize, Amortised, Grown;
      p := TryAllocateFromCachedBlock(n);
      if p == 0 {
        p := AllocateAligned(n, policy, mem);
        assert Region(|m.chain| - 1, p, p + n, Live) in m.regions;
      } else {
        assert TakenSlot(old(m), TakeIndex(n), n) in m.regions;
      }
    }

    /** Takes back the live array q, of which `size` bytes at p are returned: onto its free
        list, or, when there is no such list, as the new table of free lists. */
    method ReturnArrayMemory(p: Addr, size: nat, ghost q: Region)
      requires Valid() && LiveArray(m, q, size) && q.lo == p && size < TWO64
      modifies this
      ensures Valid() && owner == old(owner)
      ensures ReturnIndex(size) < |old(m).lists| ==> m == WithReturned(old(m), q, size, ReturnIndex(size))
      ensures ReturnIndex(size) >= |old(m).lists| ==>
                |old(m).lists| <= TableLength(size) && m == WithTable(old(m), q, size)
      ensures if ReturnIndex(size) < |old(m).lists| then Pushed(CachedIn(old(m)), CachedIn(m), ReturnIndex(size), p)
              else Lengthened(CachedIn(old(m)), CachedIn(m), if size / 8 < 64 then size / 8 else 64)
      ensures ReturnIndex(size) < |m.lists| && m.growths <= 3
      ensures LiveUntouched(old(cells), cells, old(m.regions) - {q})
    {
      hide Consistent, Mirrors, LiveUntouched, Disjoint, Amortised, SumUsed, SumSizes, Fill, Stop, TableAge, AllListed,
           Pushed, Lengthened, CachedIn;
      var index := ReturnIndex(size);
      HeadCount(m, Regs());
      if index >= cachedBlockLength {
        GrowTable(p, size, q);
        return;
      }
      HeadFacts(cells, m, Regs(), index);
      IndexBounds(16, size);
      ReturnEffect(cells, m, Regs(), q, size, index);
      ReturnPushes(m, q, size, index);
      cells := cells[p := cells[cachedBlocks + 8 * index]];
      cells := cells[cachedBlocks + 8 * index := p];
      m := WithReturned(m, q, size, index);
    }

    /** The returned array becomes the table: the old entries are copied, the rest zeroed. */
    method GrowTable(p: Addr, size: nat, ghost q: Region)
      requires Valid() && LiveArray(m, q, size) && q.lo == p && size < TWO64
      requires ReturnIndex(size) >= |m.lists|
      modifies this
      ensures Valid() && owner == old(owner)
      ensures |old(m).lists| <= TableLength(size) && m == WithTable(old(m), q, size)
      ensures Lengthened(CachedIn(old(m)), CachedIn(m), if size / 8 < 64 then size / 8 else 64)
      ensures ReturnIndex(size) < |m.lists| && m.growths <= 3
      ensures LiveUntouched(old(cells), cells, old(m.regions) - {q})
    {
      hide Consistent, Mirrors, LiveUntouched, Disjoint, Amortised, SumUsed, SumSizes, Fill, Stop, TableAge, Copying,
           ReturnIndex, AllListed, Lengthened, CachedIn;
      HeadCount(m, Regs());
      TableFits(size, cachedBlockLength);
      CopyTable(p, size, q);
      ZeroTable(p, size, q);
      TableCopied(old(cells), cells, m, Regs(), q, size);
      TableLengthens(m, q, size);
      cachedBlocks := p;
      cachedBlockLength := if size / 8 < 64 then size / 8 else 64;
      m := WithTable(m, q, size);
      HeadCount(m, Regs());
    }

    method CopyTable(p: Addr, size: nat, ghost q: Region)
      requires Valid() && LiveArray(m, q, size) && q.lo == p && cachedBlockLength <= size / 8
      modifies `cells
      ensures Copying(old(cells), cells, m, q, size, cachedBlockLength)
    {
      hide Consistent, Amortised, SumUsed, SumSizes, Fill, Stop, TableAge;
      var i := 0;
      while i < cachedBlockLength
        invariant 0 <= i <= cachedBlockLength
        invariant Copying(old(cells), cells, m, q, size, i)
        modifies `cells
      {
        HeadFacts(old(cells), m, Regs(), i);
        CopyFrom(old(cells), cells, m, Regs(), q, size, i);
        cells := cells[p + 8 * i := cells[cachedBlocks + 8 * i]];
        i := i + 1;
      }
    }

    method ZeroTable(p: Addr, size: nat, ghost q: Region)
      requires |m.lists| == cachedBlockLength <= size / 8 && q.lo == p
      modifies `cells
      ensures forall c :: Copying(c, old(cells), m, q, size, cachedBlockLength) ==>
                Copying(c, cells, m, q, size, size / 8)
    {
      var newSize := size / 8;
      var i := cachedBlockLength;
      while i < newSize
        invariant cachedBlockLength <= i <= newSize
        invariant forall c :: Copying(c, old(cells), m, q, size, cachedBlockLength) ==>
                    Copying(c, cells, m, q, size, i)
        modifies `cells
      {
        ZeroEntry(cells, m, q, size, i);
        cells := cells[p + 8 * i := 0];
        i := i + 1;
      }
    }

    // ----- cleanup -----

    /** The newest block has given up the 16 bytes at `limit` for a node not yet filled in. */
    ghost predicate NodePending()
      reads this
    {
      && Consistent(cells, m) && Mirrors(Regs().(limit := limit + 16), m) && AllListed(m)
      && ptr <= limit && Amortised(m.chain, 16)
    }

    method AllocateAlignedWithCleanup(n: nat, policy: AllocationPolicy, mem: Addr) returns (p: Addr, node: int)
      requires Valid() && n % 8 == 0 && Backed(n + CLEANUP_SIZE, policy, mem)
      modifies this
      ensures NodePending() && node == limit && owner == old(owner)
      ensures m == WithObject(WithRoom(old(m), old(limit - ptr), n + CLEANUP_SIZE, policy, mem), n)
      ensures Region(|m.chain| - 1, p, p + n, Live) in m.regions && p % 8 == 0
      ensures forall s :: s in old(m).regions ==> Disjoint(s, Region(|m.chain| - 1, p, p + n, Live))
      ensures LiveUntouched(old(cells), cells, old(m.regions))
    {
      hide Consistent, Mirrors, Offers, NextBlockSize, Disjoint, LiveUntouched, Amortised, Room, Stop, Fill;
      LiveUntouchedSame(cells, m.regions);
      AmortisedMore(m.chain, n + 16);
      var fits := HasSpace(n + CLEANUP_SIZE);
      if !fits {
        AllocateNewBlock(n + CLEANUP_SIZE, policy, mem);
      }
      p := AllocateFromExisting(n, 16);
      limit := limit - CLEANUP_SIZE;
      node := limit;
    }

    /** Fills in the pending node. */
    method SetCleanup(node: int, elem: int, cleanup: int)
      requires NodePending() && node == limit
      modifies this
      ensures Valid() && owner == old(owner) && ptr == old(ptr) && limit == old(limit)
      ensures Layout(old(m).chain) && BlockOk(|old(m).chain| - 1, Newest(Noted(old(m).chain, Node(elem, cleanup))))
      ensures m == WithNode(old(m), Node(elem, cleanup))
      ensures Registered(m.chain) == Registered(old(m).chain) + [Node(elem, cleanup)]
      ensures SumUsed(m.chain) == SumUsed(old(m).chain)
      ensures LiveUntouched(old(cells), cells, old(m.regions))
    {
      hide Consistent, LiveUntouched, SumUsed, SumSizes, SumNodes, TableAge, Registered, Amortised, Layout,
           BlockOk, Fill, Stop;
      NodeEffect(cells, m, Regs().(limit := limit + 16), Node(elem, cleanup));
      NodeListed(m, Node(elem, cleanup));
      NodeAmortised(m, Node(elem, cleanup));
      hide Mirrors;
      cells := cells[node := elem];
      cells := cells[node + 8 := cleanup];
      m := WithNode(m, Node(elem, cleanup));
    }

    method AddCleanup(elem: int, cleanup: int, policy: AllocationPolicy, mem: Addr)
      requires Valid() && Backed(CLEANUP_SIZE, policy, mem)
      modifies this
      ensures Valid() && owner == old(owner)
      ensures Registered(m.chain) == Registered(old(m).chain) + [Node(elem, cleanup)]
      ensures SumUsed(m.chain) == SumUsed(old(m).chain)
      ensures LiveUntouched(old(cells), cells, old(m.regions))
      ensures m.chain == AfterCall(policy, old(m).chain, Register(0, Node(elem, cleanup), mem))
      ensures CachedIn(m) == CachedIn(old(m))
      ensures StillGrown(policy, old(m).chain, m.chain)
    {
      hide Consistent, Mirrors, Offers, NextBlockSize, Disjoint, LiveUntouched, Amortised, Layout, BlockOk,
           SumUsed, Registered, StillGrown, AfterCall;
      NodeGrows(m, Regs(), 0, Node(elem, cleanup), policy, mem);
      var p, node := AllocateAlignedWithCleanup(0, policy, mem);
      ObjectTotals(old(m), old(limit - ptr), CLEANUP_SIZE, policy, mem, 0);
      ghost var cells1, regions1 := cells, m.regions;
      SetCleanup(node, elem, cleanup);
      LiveUntouchedFewer(cells1, cells, regions1, old(m.regions));
      LiveUntouchedTwice(old(cells), cells1, cells, old(m.regions));
    }

    /** Runs the registered cleanups and returns them in the order they were run. */
    method CleanupList() returns (ran: seq<Node>)
      requires Valid()
      modifies this
      ensures Sound() && m == old(m) && owner == old(owner)
      ensures ran == RunOrder(m.chain)
      ensures ran == Reverse(Registered(m.chain)) <==> forall k :: 0 <= k < |m.chain| ==> Runs(k, m.chain[k])
      ensures forall policy, size :: Grown(policy, size, m.chain) && CleanupsSafe(policy, size) ==>
                ran == Reverse(Registered(m.chain))
      ensures LiveUntouched(old(cells), cells, m.regions)
    {
      hide Consistent, LiveUntouched, Amortised, SumUsed, SumSizes, TableAge, RunOrder, Registered, RunBlock,
           BlockOk, NodesStored, Fill, Runs, Grown, CleanupsSafe;
      forall policy, size | Grown(policy, size, m.chain) && CleanupsSafe(policy, size)
        ensures RunOrder(m.chain) == Reverse(Registered(m.chain))
      {
        SafeRuns(policy, size, m.chain);
      }
      StartSynced(cells, m, Regs());
      RunsInReverse(m.chain);
      HeaderOfNewest(cells, m, Regs());
      cells := cells[head + 16 := limit];
      ran := [];
      ghost var k := |m.chain| - 1;
      var b := head;
      BaseNonZero(cells, m, k);
      WholeChain(m.chain);
      while b != 0
        invariant -1 <= k < |m.chain|
        invariant b == (if k < 0 then 0 else m.chain[k].base) && (k >= 0 ==> b > 0)
        invariant ran + RunOrder(m.chain[..k + 1]) == RunOrder(m.chain)
        modifies {}
        decreases k
      {
        ChainHeader(cells, m, k);
        var stop := b + RoundDownTo8(cells[b + 8]);
        var it := cells[b + 16];
        var more := RunNodes(it, stop, m.chain[k], k);
        RunOrderStep(m.chain, k);
        calc {
          RunOrder(m.chain);
          ran + RunOrder(m.chain[..k + 1]);
          ran + (more + RunOrder(m.chain[..k]));
          (ran + more) + RunOrder(m.chain[..k]);
        }
        ran := ran + more;
        if k > 0 { BaseNonZero(cells, m, k - 1); }
        b := cells[b];
        k := k - 1;
      }
      assert m.chain[..0] == [];
      RunOrderEmpty();
    }

    /** The loop over the nodes of one block. */
    method RunNodes(start: int, stop: int, ghost b: Block, ghost k: nat) returns (ran: seq<Node>)
      requires BlockOk(k, b) && NodesStored(cells, k, b)
      requires start == Stop(k, b) && stop == b.base + RoundDownTo8(b.size)
      ensures ran == RunBlock(k, b)
    {
      BlockRuns(k, b);
      ran := [];
      var it := start;
      var num := NodesBetween(it, stop);
      if num > 0 {
        ghost var done := 0;
        while it < stop
          invariant 0 <= done <= |b.nodes|
          invariant it == Stop(k, b) + 16 * done
          invariant done < |b.nodes| ==> it == NodeAt(k, b, |b.nodes| - 1 - done)
          invariant ran == Reverse(b.nodes)[..done]
          decreases |b.nodes| - done
        {
          ghost var j := |b.nodes| - 1 - done;
          assert it == NodeAt(k, b, j);
          assert Holds(cells, NodeAt(k, b, j), b.nodes[j].elem)
            && Holds(cells, NodeAt(k, b, j) + 8, b.nodes[j].cleanup);
          ReverseAt(b.nodes, done);
          ran := ran + [Node(cells[it], cells[it + 8])];
          it := it + 16;
          done := done + 1;
        }
      } else {
        assert RunBlock(k, b) == [];
      }
    }

    // ----- giving the blocks back -----

    /** Hands every block but the oldest to the deallocator, newest first, and returns the oldest.
        A block's memory is gone once it was handed over. */
    method Free() returns (base: Addr, size: nat, freed: seq<Chunk>)
      requires Valid()
      modifies this`cells
      ensures base == m.chain[0].base && size == m.chain[0].size
      ensures freed == HandedOver(m.chain)
      ensures size + TotalSize(freed) == SumSizes(m.chain) == spaceAllocated
      ensures forall a :: a in old(cells) && base <= a < base + size ==> Holds(cells, a, old(cells)[a])
    {
      hide Consistent, Intact, HandedOver, HeaderStored, SumSizes, Amortised, SumUsed, TableAge, TotalSize;
      ghost var k := |m.chain| - 1;
      var b := head;
      HeaderIntact(cells, cells, m, k);
      HandedOverTotal(m.chain);
      WholeChain(m.chain);
      base, size, freed := b, cells[b + 8], [];
      while cells[b] != 0
        invariant 0 <= k < |m.chain|
        invariant b == m.chain[k].base && base == b && size == m.chain[k].size
        invariant freed + HandedOver(m.chain[..k + 1]) == HandedOver(m.chain)
        invariant Intact(old(cells), cells, m.chain, k)
        invariant Holds(cells, b, if k == 0 then 0 else m.chain[k - 1].base)
        invariant k > 0 ==> m.chain[k - 1].base > 0
        modifies `cells
        decreases k
      {
        b := cells[b];
        IntactAfter(old(cells), cells, m, k);
        cells := map a | a in cells && !(base <= a < base + size) :: cells[a];
        freed := freed + [Chunk(base, size)];
        HandedOverStep(m.chain, k);
        k := k - 1;
        HeaderIntact(old(cells), cells, m, k);
        base, size := b, cells[b + 8];
      }
      HandedOverOldest(m.chain);
      OldestIntact(old(cells), cells, m.chain, k);
    }

    /** The owner of a live region writes a word in it. */
    method Write(a: Addr, v: int, ghost r: Region)
      requires Valid() && r in m.regions && r.role.Live? && r.lo <= a && a + 8 <= r.hi
      modifies this
      ensures Valid() && owner == old(owner) && m == old(m) && cells == old(cells)[a := v]
    {
      hide Consistent, Mirrors, LiveUntouched, Amortised;
      LiveWrite(cells, cells[a := v], m, r);
      cells := cells[a := v];
    }
  }

  /** The default policy does not make every cleanup run: behind a block of 257 bytes, which a user
      may provide, comes one of 514 bytes, and the cleanup registered alone in it is passed over. */
  method DefaultPolicySkips(elem: int, cleanup: int) returns (arena: SerialArena, ran: seq<Node>)
    ensures arena.Sound() && Registered(arena.m.chain) == [Node(elem, cleanup)]
    ensures ran == []
  {
    hide Consistent, Mirrors, LiveUntouched, Amortised, Disjoint, Grown, StillGrown, RunOrder, Runs, Registered,
         SumUsed, Room, WithRoom, WithObject, AfterCall, Layout, NextBlockSize, CleanupsSafe;
    arena := new SerialArena.New(4096, 257, 0);
    FullFirst(arena.m);
    var fits := arena.HasSpace(152);
    var p := arena.AllocateAligned(152, DEFAULT_POLICY, 0);
    fits := arena.HasSpace(CLEANUP_SIZE);
    NextIs514(Node(elem, cleanup));
    arena.AddCleanup(elem, cleanup, DEFAULT_POLICY, 8192);
    SingleNodeInOddBlockIsSkipped(Node(elem, cleanup));
    ran := arena.CleanupList();
  }

  lemma FullFirst(m: Memory)
    requires m.chain == [Block(4096, 257, 0, [])]
    ensures Room(m.chain) == 152
    ensures WithObject(WithRoom(m, 152, 152, DEFAULT_POLICY, 0), 152).chain == [Block(4096, 257, 152, [])]
  {
  }

  lemma NextIs514(node: Node)
    ensures var full := [Block(4096, 257, 152, [])];
            && Room(full) == 0 && Offers(full, 8192, NextBlockSize(DEFAULT_POLICY, 257, CLEANUP_SIZE))
            && AfterCall(DEFAULT_POLICY, full, Register(0, node, 8192)) == [full[0], Block(8192, 514, 0, [node])]
  {
    var full, b := [Block(4096, 257, 152, [])], Block(8192, 514, 0, []);
    assert WithRoomFor(DEFAULT_POLICY, full, CLEANUP_SIZE, 8192) == full + [b];
    Used(full, b, 0);
    FirstNode(full, b, node);
    assert full + [b.(nodes := [node])] == [full[0], b.(nodes := [node])];
  }

  /** An arena with three live arrays, of 16, 16 and 64 bytes. */
  method ThreeArrays() returns (arena: SerialArena, first: Addr, second: Addr, third: Addr)
    ensures fresh(arena) && arena.Valid() && arena.m.lists == []
    ensures 0 < first < second < third && first % 8 == second % 8 == third % 8 == 0
    ensures Region(0, first, first + 16, Live) in arena.m.regions
    ensures Region(0, second, second + 16, Live) in arena.m.regions
    ensures Region(0, third, third + 64, Live) in arena.m.regions
  {
    hide Consistent, Mirrors, LiveUntouched, Amortised, Disjoint, Grown, AllListed, Layout, TableAge;
    arena := new SerialArena.New(4096, 1024, 0);
    FirstRoom(arena);
    var ok;
    ok, first := arena.MaybeAllocateAligned(16);
    FirstRoom(arena);
    ok, second := arena.MaybeAllocateAligned(16);
    FirstRoom(arena);
    ok, third := arena.MaybeAllocateAligned(64);
  }

  /** Two arrays of 16 bytes and one of 64 are returned: the first becomes the table, the second is
      listed, the third replaces the table. The next request for 16 bytes gets the second one. */
  method ReturnedArrayComesBack() returns (second: Addr, again: Addr)
    ensures again == second != 0
  {
    hide Consistent, Mirrors, LiveUntouched, Amortised, Disjoint, AllListed, Layout, CachedIn, ReturnIndex, TakeIndex,
         TableAge;
    var arena, first, third;
    arena, first, second, third := ThreeArrays();
    SmallIndices();
    arena.ReturnArrayMemory(first, 16, Region(0, first, first + 16, Live));
    arena.ReturnArrayMemory(second, 16, Region(0, second, second + 16, Live));
    arena.ReturnArrayMemory(third, 64, Region(0, third, third + 64, Live));
    again := arena.TryAllocateFromCachedBlock(16);
  }

  lemma FirstRoom(arena: SerialArena)
    requires arena.Valid() && |arena.m.chain| == 1
    ensures var b := arena.m.chain[0]; arena.limit - arena.ptr == b.size - b.size % 8 - 16 * |b.nodes| - 104 - b.used
  {
    hide Consistent, SumUsed, SumSizes, TableAge, AllListed, Amortised;
  }

  lemma SmallIndices()
    ensures ReturnIndex(16) == 0 && ReturnIndex(64) == 2 && TakeIndex(16) == 0
  {
    assert Log2Floor(16) == 4 && Log2Floor(64) == 6 && Log2Floor(15) == 3;
  }

  /** The first i entries of the new table are written. */
  ghost predicate Copying(cells: Cells, cells': Cells, m: Memory, q: Region, size: nat, i: nat) {
    && AgreeOutside(cells, cells', q.lo, q.lo + 8 * (size / 8))
    && forall k :: 0 <= k < i ==> Holds(cells', q.lo + 8 * k, Entry(m, k))
  }

  lemma ZeroEntry(cells: Cells, m: Memory, q: Region, size: nat, i: nat)
    requires |m.lists| <= i < size / 8
    ensures forall c :: Copying(c, cells, m, q, size, i) ==> Copying(c, cells[q.lo + 8 * i := 0], m, q, size, i + 1)
  {
  }

  lemma HeadCount(m: Memory, r: Registers)
    requires Mirrors(r, m)
    ensures r.cachedBlockLength == |m.lists| && m.growths <= 3
  {
  }

  lemma TableCopied(cells: Cells, cells': Cells, m: Memory, r: Registers, q: Region, size: nat)
    requires Consistent(cells, m) && Mirrors(r, m) && LiveArray(m, q, size) && size < TWO64
    requires |m.lists| <= ReturnIndex(size) < size / 8 && Copying(cells, cells', m, q, size, size / 8)
    ensures |m.lists| <= TableLength(size)
    ensures Consistent(cells', WithTable(m, q, size))
    ensures Mirrors(r.(cachedBlocks := q.lo, cachedBlockLength := TableLength(size)), WithTable(m, q, size))
    ensures ReturnIndex(size) < TableLength(size) == |WithTable(m, q, size).lists|
    ensures WithTable(m, q, size).chain == m.chain
    ensures LiveUntouched(cells, cells', m.regions - {q})
  {
    hide Consistent, Mirrors, LiveUntouched;
    TableFits(size, |m.lists|);
    TableEffect(cells, cells', m, r, q, size);
  }

  /** While the new table is written the old one can still be read. */
  lemma CopyFrom(cells: Cells, cells': Cells, m: Memory, r: Registers, q: Region, size: nat, i: nat)
    requires Consistent(cells, m) && Mirrors(r, m) && LiveArray(m, q, size) && i < |m.lists|
    requires AgreeOutside(cells, cells', q.lo, q.lo + 8 * (size / 8))
    ensures Holds(cells', r.cachedBlocks + 8 * i, HeadOf(m.lists[i]))
  {
    hide Layout, AllPlaced, AllBlockRegionsIn, HeadersStored, AllNodesStored, TableAge, SumUsed, SumSizes;
    assert Disjoint(q, m.table);
    HeadFacts(cells, m, r, i);
  }

  lemma ListsPlaced(cells: Cells, m: Memory)
    requires Consistent(cells, m)
    ensures FreeListsPlaced(m.lists, m.table, m.regions)
  {
  }

  lemma NodeListed(m: Memory, node: Node)
    requires AllListed(m) && Layout(m.chain) && BlockOk(|m.chain| - 1, Newest(Noted(m.chain, node)))
    ensures AllListed(WithNode(m, node))
  {
    hide AllListed, BlockOk;
    var last, chain' := |m.chain| - 1, Noted(m.chain, node);
    MoreListed(m, WithNode(m, node), NodeRegion(last, chain'[last], |m.chain[last].nodes|));
  }

  lemma LimitBelowTop(cells: Cells, m: Memory, r: Registers)
    requires Consistent(cells, m) && Mirrors(r, m)
    ensures r.limit < TWO64 && Room(m.chain) == r.limit - r.ptr
  {
    hide Partition, FreeListsPlaced, HeadersStored, AllNodesStored, ListsStored, TableAge, SumUsed, SumSizes;
    assert BlockOk(|m.chain| - 1, Newest(m.chain));
  }

  /** An allocation is a call of the model of growing chains. */
  lemma ObjectGrows(m: Memory, r: Registers, n: nat, policy: AllocationPolicy, mem: Addr)
    requires Mirrors(r, m) && n % 8 == 0
    requires n <= r.limit - r.ptr || (n + BLOCK_HEADER_SIZE < TWO64
                                      && Offers(m.chain, mem, NextBlockSize(policy, Newest(m.chain).size, n)))
    ensures StillGrown(policy, m.chain, WithObject(WithRoom(m, r.limit - r.ptr, n, policy, mem), n).chain)
  {
    hide StillGrown, Offers, NextBlockSize, SumUsed, SumSizes, TableAge;
    CallGrows(policy, m.chain, Allocate(n, mem));
  }

  /** So is a registration, with or without an object. */
  lemma NodeGrows(m: Memory, r: Registers, n: nat, node: Node, policy: AllocationPolicy, mem: Addr)
    requires Mirrors(r, m) && n % 8 == 0
    requires n + CLEANUP_SIZE <= r.limit - r.ptr
             || (n + CLEANUP_SIZE + BLOCK_HEADER_SIZE < TWO64
                 && Offers(m.chain, mem, NextBlockSize(policy, Newest(m.chain).size, n + CLEANUP_SIZE)))
    ensures var m' := WithObject(WithRoom(m, r.limit - r.ptr, n + CLEANUP_SIZE, policy, mem), n);
            && Noted(m'.chain, node) == AfterCall(policy, m.chain, Register(n, node, mem))
            && StillGrown(policy, m.chain, Noted(m'.chain, node))
  {
    hide StillGrown, Offers, NextBlockSize, SumUsed, SumSizes, TableAge;
    CallGrows(policy, m.chain, Register(n, node, mem));
  }

  lemma LiveUntouchedSame(cells: Cells, regions: set<Region>)
    ensures LiveUntouched(cells, cells, regions)
  {
  }

  lemma AmortisedMore(chain: seq<Block>, n: nat)
    requires |chain| > 0 && Amortised(chain, 0)
    ensures Amortised(chain, n)
  {
  }

  lemma NewBlockAmortised(m: Memory, r: Registers, b: Block, n: nat)
    requires |m.chain| > 0 && Mirrors(r, m) && Amortised(m.chain, 0) && r.limit - r.ptr < n
    requires b.used == 0 && b.nodes == []
    ensures Amortised(WithBlock(m, b).chain, n)
  {
    AmortisedNewBlock(m.chain, b, n);
  }

  lemma ObjectAmortised(m: Memory, n: nat, rest: nat)
    requires |m.chain| > 0 && Amortised(m.chain, n + rest)
    ensures Amortised(WithObject(m, n).chain, rest)
  {
    NewestSplit(m.chain, Newest(m.chain));
    assert WithNewest(m.chain, Newest(m.chain)) == m.chain;
    NewestSplit(m.chain, Newest(WithObject(m, n).chain));
  }

  lemma NodeAmortised(m: Memory, node: Node)
    requires Layout(m.chain) && BlockOk(|m.chain| - 1, Newest(Noted(m.chain, node))) && Amortised(m.chain, 16)
    ensures Amortised(WithNode(m, node).chain, 0)
  {
    assert |m.chain| > 0;
    hide Layout, BlockOk;
    NewestSplit(m.chain, Newest(m.chain));
    assert WithNewest(m.chain, Newest(m.chain)) == m.chain;
    NewestSplit(m.chain, Newest(Noted(m.chain, node)));
  }

  lemma ObjectTotals(m: Memory, room: int, need: nat, policy: AllocationPolicy, mem: Addr, n: nat)
    requires |m.chain| > 0
    ensures var m' := WithObject(WithRoom(m, room, need, policy, mem), n);
            Registered(m'.chain) == Registered(m.chain) && SumUsed(m'.chain) == SumUsed(m.chain) + n
  {
    var m1 := WithRoom(m, room, need, policy, mem);
    if room < need {
      AppendSplit(m.chain, Newest(m1.chain));
      assert Registered(m1.chain) == Registered(m.chain);
    }
    NewestSplit(m1.chain, Newest(m1.chain));
    assert WithNewest(m1.chain, Newest(m1.chain)) == m1.chain;
    NewestSplit(m1.chain, Newest(WithObject(m1, n).chain));
  }

  lemma BaseNonZero(cells: Cells, m: Memory, k: nat)
    requires Consistent(cells, m) && k < |m.chain|
    ensures m.chain[k].base > 0
  {
    assert BlockOk(k, m.chain[k]);
  }

  lemma ChainHeader(cells: Cells, m: Memory, k: nat)
    requires Consistent(cells, m) && k < |m.chain|
    ensures BlockOk(k, m.chain[k]) && NodesStored(cells, k, m.chain[k]) && HeaderStored(cells, m.chain, k)
  {
  }

  /** The memory of blocks 0 to k still holds what it held. */
  ghost predicate Intact(cells: Cells, cells': Cells, chain: seq<Block>, k: nat) {
    forall j, a :: 0 <= j <= k && j < |chain| && InBlock(chain[j], a) && a in cells ==>
      a in cells' && cells'[a] == cells[a]
  }

  ghost predicate InBlock(b: Block, a: int) {
    b.base <= a < b.base + b.size
  }

  lemma IntactAfter(cells: Cells, cells': Cells, m: Memory, k: nat)
    requires Consistent(cells, m) && 0 < k < |m.chain| && Intact(cells, cells', m.chain, k)
    ensures var b := m.chain[k];
            Intact(cells, map a | a in cells' && !(b.base <= a < b.base + b.size) :: cells'[a], m.chain, k - 1)
  {
    hide Partition, ListsStored, FreeListsPlaced, AllNodesStored, HeadersStored;
    forall j | 0 <= j < k ensures Apart(m.chain[j], m.chain[k]) {
    }
  }

  lemma HeaderIntact(cells: Cells, cells': Cells, m: Memory, k: nat)
    requires Consistent(cells, m) && k < |m.chain|
    requires cells == cells' || Intact(cells, cells', m.chain, k)
    ensures Intact(cells, cells', m.chain, k)
    ensures Holds(cells', m.chain[k].base, if k == 0 then 0 else m.chain[k - 1].base)
    ensures Holds(cells', m.chain[k].base + 8, m.chain[k].size)
    ensures k > 0 ==> m.chain[k - 1].base > 0
  {
    hide Partition, ListsStored, FreeListsPlaced, AllNodesStored;
    ChainHeader(cells, m, k);
    assert InBlock(m.chain[k], m.chain[k].base) && InBlock(m.chain[k], m.chain[k].base + 8);
    if k > 0 {
      BaseNonZero(cells, m, k - 1);
    }
  }

  lemma OldestIntact(cells: Cells, cells': Cells, chain: seq<Block>, k: nat)
    requires |chain| > 0 && Intact(cells, cells', chain, k)
    ensures forall a :: a in cells && chain[0].base <= a < chain[0].base + chain[0].size ==>
              a >= 0 && Holds(cells', a, cells[a])
  {
    forall a | a in cells && chain[0].base <= a < chain[0].base + chain[0].size ensures Holds(cells', a, cells[a]) {
      assert InBlock(chain[0], a);
    }
  }

  lemma WholeChain(chain: seq<Block>)
    ensures chain[..|chain|] == chain
  {
  }

  lemma RunOrderEmpty()
    ensures RunOrder([]) == []
  {
  }

  lemma RunOrderStep(chain: seq<Block>, k: nat)
    requires k < |chain|
    ensures RunOrder(chain[..k + 1]) == RunBlock(k, chain[k]) + RunOrder(chain[..k])
  {
    assert chain[..k + 1][..k] == chain[..k];
  }

  /** All blocks but the oldest, newest first. */
  ghost function HandedOver(chain: seq<Block>): seq<Chunk> {
    if |chain| <= 1 then []
    else [Chunk(Newest(chain).base, Newest(chain).size)] + HandedOver(chain[..|chain| - 1])
  }

  lemma {:induction false} HandedOverTotal(chain: seq<Block>)
    requires |chain| > 0
    ensures chain[0].size + TotalSize(HandedOver(chain)) == SumSizes(chain)
  {
    if |chain| == 1 {
      assert chain[..0] == [];
    } else {
      HandedOverTotal(chain[..|chain| - 1]);
      assert HandedOver(chain)[1..] == HandedOver(chain[..|chain| - 1]);
    }
  }

  lemma HandedOverStep(chain: seq<Block>, k: nat)
    requires 0 < k < |chain|
    ensures HandedOver(chain[..k + 1]) == [Chunk(chain[k].base, chain[k].size)] + HandedOver(chain[..k])
  {
    assert chain[..k + 1][..k] == chain[..k];
  }

  lemma HandedOverOldest(chain: seq<Block>)
    requires |chain| > 0
    ensures HandedOver(chain[..1]) == []
  {
  }
}
