/** What each step of the allocator does to the contents of its memory. */
module ArenaEffects {
  import opened Bits
  import opened ArenaMemory
  import opened ArenaAccounting

  /** A SerialArena's memory: blocks (oldest first), regions, free lists, the region that
      holds the free-list table, and how often the table was replaced. */
  datatype Memory = Memory(chain: seq<Block>, regions: set<Region>, lists: seq<seq<Region>>, table: Region,
    growths: nat)

  /** The fields of a SerialArena. */
  datatype Registers = Registers(head: Addr, ptr: Addr, limit: int, spaceUsed: nat, spaceAllocated: nat,
                                 cachedBlockLength: nat, cachedBlocks: Addr)

  ghost predicate Consistent(cells: Cells, m: Memory) {
    && Layout(m.chain) && Partition(m.chain, m.regions) && FreeListsPlaced(m.lists, m.table, m.regions)
    && HeadersStored(cells, m.chain) && AllNodesStored(cells, m.chain) && ListsStored(cells, m.lists, m.table)
  }

  ghost predicate Mirrors(r: Registers, m: Memory) {
    && |m.chain| > 0
    && var last := |m.chain| - 1;
    && r.head == m.chain[last].base
    && r.ptr == Fill(last, m.chain[last])
    && r.limit == Stop(last, m.chain[last])
    && r.spaceUsed == (if last == 0 then 0 else SERIAL_ARENA_SIZE + SumUsed(m.chain[..last]))
    && r.spaceAllocated == SumSizes(m.chain)
    && r.cachedBlockLength == |m.lists|
    && r.cachedBlocks == (if |m.lists| == 0 then 0 else m.table.lo)
    && TableAge(m.growths, |m.lists|)
  }

  /** No cell of a live region changes its value. */
  ghost predicate LiveUntouched(cells: Cells, cells': Cells, regions: set<Region>) {
    forall r, a :: r in regions && r.role.Live? && r.lo <= a < r.hi && a in cells ==>
      a in cells' && cells'[a] == cells[a]
  }

  /** A write inside one region leaves what is stored in regions of the other kinds, and
      every live region but that one. */
  lemma Elsewhere(cells: Cells, cells': Cells, r: Region, m: Memory)
    requires Consistent(cells, m)
    requires r in m.regions && AgreeOutside(cells, cells', r.lo, r.hi)
    ensures !r.role.Header? ==> HeadersStored(cells', m.chain)
    ensures !r.role.Cleanup? ==> AllNodesStored(cells', m.chain)
    ensures !r.role.FreeLists? && !r.role.Cached? ==> ListsStored(cells', m.lists, m.table)
    ensures LiveUntouched(cells, cells', m.regions - {r})
  {
    if !r.role.Header? { HeadersUntouched(cells, cells', r, m.chain, m.regions); }
    if !r.role.Cleanup? { NodesUntouched(cells, cells', r, m.chain, m.regions); }
    if !r.role.FreeLists? && !r.role.Cached? { ListsUntouched(cells, cells', r, m.lists, m.table, m.regions); }
    OthersUntouched(cells, cells', r, m.regions);
  }

  lemma OthersUntouched(cells: Cells, cells': Cells, r: Region, regions: set<Region>)
    requires AllDisjoint(regions) && r in regions && AgreeOutside(cells, cells', r.lo, r.hi)
    ensures LiveUntouched(cells, cells', regions - {r})
  {
    forall s, a | s in regions - {r} && s.role.Live? && s.lo <= a < s.hi && a in cells
      ensures a in cells' && cells'[a] == cells[a]
    {
      assert Disjoint(s, r);
    }
  }

  lemma LiveUntouchedFewer(cells: Cells, cells': Cells, more: set<Region>, regions: set<Region>)
    requires LiveUntouched(cells, cells', more)
    requires forall r :: r in regions && r.role.Live? ==> r in more
    ensures LiveUntouched(cells, cells', regions)
  {
  }

  lemma FreeListsStay(lists: seq<seq<Region>>, table: Region, regions: set<Region>, regions': set<Region>)
    requires FreeListsPlaced(lists, table, regions)
    requires forall r :: r in regions && (r.role.Cached? || r.role.FreeLists?) ==> r in regions'
    ensures FreeListsPlaced(lists, table, regions')
  {
    forall i, j | 0 <= i < |lists| && 0 <= j < |lists[i]| ensures SlotPlaced(lists, regions', i, j) {
      assert SlotPlaced(lists, regions, i, j);
    }
  }

  /** The owner of a live region may write anywhere in it: the allocator and all other live
      regions are undisturbed. */
  lemma LiveWrite(cells: Cells, cells': Cells, m: Memory, r: Region)
    requires Consistent(cells, m)
    requires r in m.regions && r.role.Live? && AgreeOutside(cells, cells', r.lo, r.hi)
    ensures Consistent(cells', m)
    ensures LiveUntouched(cells, cells', m.regions - {r})
  {
    Elsewhere(cells, cells', r, m);
  }

  // ----- objects -----

  ghost function WithObject(m: Memory, n: nat): Memory
    requires |m.chain| > 0
  {
    m.(chain := Bumped(m.chain, n), regions := m.regions + {Taken(m.chain, n)})
  }

  lemma ObjectEffect(cells: Cells, m: Memory, r: Registers, n: nat)
    requires Consistent(cells, m) && Mirrors(r, m) && n % 8 == 0 && r.ptr + n <= r.limit
    ensures Consistent(cells, WithObject(m, n))
    ensures Mirrors(r.(ptr := r.ptr + n), WithObject(m, n))
    ensures r.ptr % 8 == 0 && Taken(m.chain, n) == Region(|m.chain| - 1, r.ptr, r.ptr + n, Live)
    ensures forall s :: s in m.regions ==> Disjoint(s, Taken(m.chain, n))
    ensures SumUsed(WithObject(m, n).chain) == SumUsed(m.chain) + n
    ensures SumNodes(WithObject(m, n).chain) == SumNodes(m.chain)
    ensures Registered(WithObject(m, n).chain) == Registered(m.chain)
  {
    hide Consistent, SumUsed, SumNodes, Registered;
    ObjectConsistent(cells, m, r, n);
    ObjectMirrors(cells, m, r, n);
  }

  lemma ObjectConsistent(cells: Cells, m: Memory, r: Registers, n: nat)
    requires Consistent(cells, m) && Mirrors(r, m) && n % 8 == 0 && r.ptr + n <= r.limit
    ensures Consistent(cells, WithObject(m, n))
    ensures forall s :: s in m.regions ==> Disjoint(s, Taken(m.chain, n))
  {
    hide AllPlaced, AllDisjoint, AllBlockRegionsIn, FreeListsPlaced, HeadersStored, AllNodesStored, ListsStored,
      TableAge, SumUsed, SumSizes, BlockOk, Disjoint;
    BumpKeeps(m.chain, m.regions, n);
    FreeListsStay(m.lists, m.table, m.regions, WithObject(m, n).regions);
    StoredAfterBump(cells, m.chain, n);
  }

  lemma ObjectMirrors(cells: Cells, m: Memory, r: Registers, n: nat)
    requires Consistent(cells, m) && Mirrors(r, m)
    ensures Mirrors(r.(ptr := r.ptr + n), WithObject(m, n))
    ensures r.ptr % 8 == 0 && Taken(m.chain, n) == Region(|m.chain| - 1, r.ptr, r.ptr + n, Live)
    ensures SumUsed(WithObject(m, n).chain) == SumUsed(m.chain) + n
    ensures SumNodes(WithObject(m, n).chain) == SumNodes(m.chain)
    ensures Registered(WithObject(m, n).chain) == Registered(m.chain)
  {
    hide Partition, FreeListsPlaced, HeadersStored, AllNodesStored, ListsStored, TableAge, Apart;
    NewestSplit(m.chain, Newest(m.chain));
    assert WithNewest(m.chain, Newest(m.chain)) == m.chain;
    NewestSplit(m.chain, Newest(Bumped(m.chain, n)));
    assert BlockOk(|m.chain| - 1, Newest(m.chain));
  }

  lemma StoredAfterBump(cells: Cells, chain: seq<Block>, n: nat)
    requires |chain| > 0 && HeadersStored(cells, chain) && AllNodesStored(cells, chain)
    ensures HeadersStored(cells, Bumped(chain, n)) && AllNodesStored(cells, Bumped(chain, n))
  {
    var chain' := Bumped(chain, n);
    forall k | 0 <= k < |chain'| ensures HeaderStored(cells, chain', k) {
      assert HeaderStored(cells, chain, k);
    }
    forall k | 0 <= k < |chain'| ensures NodesStored(cells, k, chain'[k]) {
      assert NodesStored(cells, k, chain[k]);
    }
  }

  // ----- cleanup nodes -----

  ghost function WithNode(m: Memory, node: Node): Memory
    requires Layout(m.chain) && BlockOk(|m.chain| - 1, Newest(Noted(m.chain, node)))
  {
    var last := |m.chain| - 1;
    var chain' := Noted(m.chain, node);
    m.(chain := chain', regions := m.regions + {NodeRegion(last, chain'[last], |m.chain[last].nodes|)})
  }

  ghost function NodeCells(cells: Cells, a: int, node: Node): Cells {
    cells[a := node.elem][a + 8 := node.cleanup]
  }

  lemma NodeEffect(cells: Cells, m: Memory, r: Registers, node: Node)
    requires Consistent(cells, m) && Mirrors(r, m) && r.ptr + CLEANUP_SIZE <= r.limit
    ensures Layout(m.chain) && BlockOk(|m.chain| - 1, Newest(Noted(m.chain, node)))
    ensures Consistent(NodeCells(cells, r.limit - 16, node), WithNode(m, node))
    ensures Mirrors(r.(limit := r.limit - 16), WithNode(m, node))
    ensures LiveUntouched(cells, NodeCells(cells, r.limit - 16, node), m.regions)
    ensures SumUsed(WithNode(m, node).chain) == SumUsed(m.chain)
    ensures SumNodes(WithNode(m, node).chain) == SumNodes(m.chain) + 1
    ensures Registered(WithNode(m, node).chain) == Registered(m.chain) + [node]
  {
    hide AllPlaced, AllBlockRegionsIn, FreeListsPlaced, HeadersStored, AllNodesStored, ListsStored,
      TableAge, LiveUntouched, SumUsed, SumNodes, SumSizes, Registered, BlockOk;
    NoteKeeps(m.chain, m.regions, node);
    NodeConsistent(cells, m, node);
    NodeMirrors(m, r, node);
  }

  lemma NodeConsistent(cells: Cells, m: Memory, node: Node)
    requires Consistent(cells, m)
    requires Fill(|m.chain| - 1, Newest(m.chain)) + CLEANUP_SIZE <= Stop(|m.chain| - 1, Newest(m.chain))
    ensures BlockOk(|m.chain| - 1, Newest(Noted(m.chain, node)))
    ensures Consistent(NodeCells(cells, Stop(|m.chain| - 1, Newest(m.chain)) - 16, node), WithNode(m, node))
    ensures LiveUntouched(cells, NodeCells(cells, Stop(|m.chain| - 1, Newest(m.chain)) - 16, node), m.regions)
  {
    hide AllPlaced, AllBlockRegionsIn, FreeListsPlaced, HeadersStored, AllNodesStored, ListsStored, LiveUntouched;
    var last := |m.chain| - 1;
    NoteKeeps(m.chain, m.regions, node);
    var m' := WithNode(m, node);
    var cells' := NodeCells(cells, Stop(last, m.chain[last]) - 16, node);
    var t := NodeRegion(last, m'.chain[last], |m.chain[last].nodes|);
    FreeListsStay(m.lists, m.table, m.regions, m'.regions);
    HeadersUntouchedByNote(cells, m.chain, node);
    HeadersUntouched(cells, cells', t, m'.chain, m'.regions);
    ListsUntouched(cells, cells', t, m.lists, m.table, m'.regions);
    NodesAfterNote(cells, m.chain, m.regions, node);
    OthersUntouched(cells, cells', t, m'.regions);
    LiveUntouchedFewer(cells, cells', m'.regions - {t}, m.regions);
  }

  lemma NodeMirrors(m: Memory, r: Registers, node: Node)
    requires Mirrors(r, m) && Layout(m.chain) && BlockOk(|m.chain| - 1, Newest(Noted(m.chain, node)))
    ensures Mirrors(r.(limit := r.limit - 16), WithNode(m, node))
    ensures SumUsed(WithNode(m, node).chain) == SumUsed(m.chain)
    ensures SumNodes(WithNode(m, node).chain) == SumNodes(m.chain) + 1
    ensures Registered(WithNode(m, node).chain) == Registered(m.chain) + [node]
  {
    hide Layout, TableAge;
    NewestSplit(m.chain, Newest(m.chain));
    assert WithNewest(m.chain, Newest(m.chain)) == m.chain;
    NewestSplit(m.chain, Newest(Noted(m.chain, node)));
    assert Registered(WithNode(m, node).chain) == Registered(m.chain) + [node];
  }

  lemma HeadersUntouchedByNote(cells: Cells, chain: seq<Block>, node: Node)
    requires |chain| > 0 && HeadersStored(cells, chain)
    ensures HeadersStored(cells, Noted(chain, node))
  {
    forall k | 0 <= k < |chain| ensures HeaderStored(cells, Noted(chain, node), k) {
      assert HeaderStored(cells, chain, k);
    }
  }

  lemma NodesAfterNote(cells: Cells, chain: seq<Block>, regions: set<Region>, node: Node)
    requires Layout(chain) && Partition(chain, regions) && AllNodesStored(cells, chain)
    requires Fill(|chain| - 1, Newest(chain)) + CLEANUP_SIZE <= Stop(|chain| - 1, Newest(chain))
    ensures AllNodesStored(NodeCells(cells, Stop(|chain| - 1, Newest(chain)) - 16, node), Noted(chain, node))
  {
    hide AllPlaced, AllDisjoint, NodesStored, BlockOk, Apart;
    var last := |chain| - 1;
    var a := Stop(last, chain[last]) - 16;
    var chain' := Noted(chain, node);
    forall k | 0 <= k < |chain'| ensures NodesStored(NodeCells(cells, a, node), k, chain'[k]) {
      assert NodesStored(cells, k, chain[k]);
      if k < last {
        assert Apart(chain[k], chain[last]) && BlockOk(k, chain[k]) && BlockOk(last, chain[last]);
        NodesElsewhere(cells, k, chain[k], last, chain[last], node);
      } else {
        NodesWithOneMore(cells, k, chain[k], node);
      }
    }
  }

  lemma NodesElsewhere(cells: Cells, k: nat, b: Block, last: nat, c: Block, node: Node)
    requires NodesStored(cells, k, b) && BlockOk(k, b) && BlockOk(last, c) && Apart(b, c)
    requires Fill(last, c) + CLEANUP_SIZE <= Stop(last, c)
    ensures NodesStored(NodeCells(cells, Stop(last, c) - 16, node), k, b)
  {
    forall j | 0 <= j < |b.nodes|
      ensures b.base <= NodeAt(k, b, j) && NodeAt(k, b, j) + 16 <= b.base + b.size
    {
    }
  }

  lemma NodesWithOneMore(cells: Cells, k: nat, b: Block, node: Node)
    requires NodesStored(cells, k, b) && BlockOk(k, b) && Fill(k, b) + CLEANUP_SIZE <= Stop(k, b)
    ensures NodesStored(NodeCells(cells, Stop(k, b) - 16, node), k, b.(nodes := b.nodes + [node]))
  {
    var b' := b.(nodes := b.nodes + [node]);
    forall j | 0 <= j < |b'.nodes|
      ensures Holds(NodeCells(cells, Stop(k, b) - 16, node), NodeAt(k, b', j), b'.nodes[j].elem)
      ensures Holds(NodeCells(cells, Stop(k, b) - 16, node), NodeAt(k, b', j) + 8, b'.nodes[j].cleanup)
    {
      if j < |b.nodes| {
        assert Holds(cells, NodeAt(k, b, j), b.nodes[j].elem);
      }
    }
  }

  // ----- blocks -----

  ghost function WithBlock(m: Memory, b: Block): Memory {
    m.(chain := m.chain + [b], regions := m.regions + {HeaderRegion(|m.chain|, b)})
  }

  ghost function BlockCells(cells: Cells, r: Registers, b: Block): Cells {
    cells[r.head + 16 := r.limit][b.base := r.head][b.base + 8 := b.size][b.base + 16 := 0]
  }

  ghost function BlockRegisters(r: Registers, b: Block): Registers
    requires r.ptr >= r.head + BLOCK_HEADER_SIZE
  {
    r.(head := b.base, ptr := b.base + BLOCK_HEADER_SIZE, limit := b.base + b.size,
       spaceUsed := r.spaceUsed + (r.ptr - (r.head + BLOCK_HEADER_SIZE)),
       spaceAllocated := r.spaceAllocated + b.size)
  }

  ghost predicate NewBlock(m: Memory, b: Block) {
    Offers(m.chain, b.base, b.size) && b.size >= BLOCK_HEADER_SIZE && b == Block(b.base, b.size, 0, [])
  }

  lemma HeaderOfNewest(cells: Cells, m: Memory, r: Registers)
    requires Consistent(cells, m) && Mirrors(r, m)
    ensures r.ptr >= r.head + BLOCK_HEADER_SIZE && r.head > 0 && r.ptr <= r.limit && r.ptr % 8 == 0
    ensures Holds(cells, r.head + 8, Newest(m.chain).size)
    ensures r.head + 16 in cells
  {
    hide Partition, FreeListsPlaced, AllNodesStored, ListsStored, TableAge, SumUsed, SumSizes;
    assert HeaderStored(cells, m.chain, |m.chain| - 1) && BlockOk(|m.chain| - 1, Newest(m.chain));
  }

  lemma BlockEffect(cells: Cells, m: Memory, r: Registers, b: Block)
    requires Consistent(cells, m) && Mirrors(r, m) && NewBlock(m, b)
    ensures r.ptr >= r.head + BLOCK_HEADER_SIZE
    ensures Consistent(BlockCells(cells, r, b), WithBlock(m, b))
    ensures Mirrors(BlockRegisters(r, b), WithBlock(m, b))
    ensures LiveUntouched(cells, BlockCells(cells, r, b), m.regions)
    ensures forall s :: s in m.regions ==> Disjoint(s, HeaderRegion(|m.chain|, b))
  {
    hide AllPlaced, AllDisjoint, AllBlockRegionsIn, FreeListsPlaced, HeadersStored, AllNodesStored, ListsStored,
         TableAge, LiveUntouched, Offers;
    HeaderOfNewest(cells, m, r);
    var synced := cells[r.head + 16 := r.limit];
    StartSynced(cells, m, r);
    NewHeaderStored(synced, BlockCells(cells, r, b), m, b);
    LiveUntouchedTwice(cells, synced, BlockCells(cells, r, b), m.regions);
    AppendSplit(m.chain, b);
    NewestShare(m.chain);
    NewBlockKeeps(m.chain, m.regions, b.base, b.size);
  }

  lemma LiveUntouchedTwice(cells: Cells, cells': Cells, cells'': Cells, regions: set<Region>)
    requires LiveUntouched(cells, cells', regions) && LiveUntouched(cells', cells'', regions)
    ensures LiveUntouched(cells, cells'', regions)
  {
  }

  /** Writing the newest block's cleanup limit into its header. */
  lemma StartSynced(cells: Cells, m: Memory, r: Registers)
    requires Consistent(cells, m) && Mirrors(r, m)
    ensures Consistent(cells[r.head + 16 := r.limit], m)
    ensures Holds(cells[r.head + 16 := r.limit], r.head + 16, Stop(|m.chain| - 1, Newest(m.chain)))
    ensures LiveUntouched(cells, cells[r.head + 16 := r.limit], m.regions)
  {
    hide AllPlaced, AllDisjoint, FreeListsPlaced, HeadersStored, AllNodesStored, ListsStored, TableAge, LiveUntouched;
    var last := |m.chain| - 1;
    var cells' := cells[r.head + 16 := r.limit];
    var h := HeaderRegion(last, m.chain[last]);
    assert BlockRegionsIn(last, m.chain[last], m.regions);
    Elsewhere(cells, cells', h, m);
    LiveUntouchedFewer(cells, cells', m.regions - {h}, m.regions);
    StartStored(cells, m.chain);
  }

  lemma StartStored(cells: Cells, chain: seq<Block>)
    requires Layout(chain) && HeadersStored(cells, chain)
    ensures HeadersStored(cells[Newest(chain).base + 16 := Stop(|chain| - 1, Newest(chain))], chain)
  {
    var last := |chain| - 1;
    var cells' := cells[Newest(chain).base + 16 := Stop(last, Newest(chain))];
    forall k | 0 <= k < |chain| ensures HeaderStored(cells', chain, k) {
      assert HeaderStored(cells, chain, k);
      assert BlockOk(k, chain[k]) && BlockOk(last, chain[last]);
      if k < last {
        assert Apart(chain[k], chain[last]);
      }
    }
  }

  /** Writing the header of a new block. */
  lemma NewHeaderStored(cells: Cells, cells': Cells, m: Memory, b: Block)
    requires Consistent(cells, m) && NewBlock(m, b)
    requires Holds(cells, Newest(m.chain).base + 16, Stop(|m.chain| - 1, Newest(m.chain)))
    requires cells' == cells[b.base := Newest(m.chain).base][b.base + 8 := b.size][b.base + 16 := 0]
    ensures Consistent(cells', WithBlock(m, b))
    ensures LiveUntouched(cells, cells', m.regions)
  {
    hide FreeListsPlaced, HeadersStored, AllNodesStored, ListsStored, AllBlockRegionsIn, LiveUntouched, Offers;
    var h := HeaderRegion(|m.chain|, b);
    var regions' := m.regions + {h};
    NewBlockKeeps(m.chain, m.regions, b.base, b.size);
    HeadersWithNew(cells, m.chain, b);
    assert AllNodesStored(cells, m.chain + [b]) by {
      NodesWithNew(cells, m.chain, b);
    }
    NodesUntouched(cells, cells', h, m.chain + [b], regions');
    FreeListsStay(m.lists, m.table, m.regions, regions');
    ListsUntouched(cells, cells', h, m.lists, m.table, regions');
    OthersUntouched(cells, cells', h, regions');
    LiveUntouchedFewer(cells, cells', regions' - {h}, m.regions);
  }

  lemma NodesWithNew(cells: Cells, chain: seq<Block>, b: Block)
    requires AllNodesStored(cells, chain) && b.nodes == []
    ensures AllNodesStored(cells, chain + [b])
  {
    forall k | 0 <= k < |chain + [b]| ensures NodesStored(cells, k, (chain + [b])[k]) {
      if k < |chain| {
        assert NodesStored(cells, k, chain[k]);
      }
    }
  }

  lemma HeadersWithNew(cells: Cells, chain: seq<Block>, b: Block)
    requires Layout(chain) && HeadersStored(cells, chain)
    requires Holds(cells, Newest(chain).base + 16, Stop(|chain| - 1, Newest(chain)))
    requires Offers(chain, b.base, b.size) && b.size >= BLOCK_HEADER_SIZE && b == Block(b.base, b.size, 0, [])
    ensures HeadersStored(cells[b.base := Newest(chain).base][b.base + 8 := b.size][b.base + 16 := 0], chain + [b])
  {
    var chain' := chain + [b];
    var cells' := cells[b.base := Newest(chain).base][b.base + 8 := b.size][b.base + 16 := 0];
    forall k | 0 <= k < |chain'| ensures HeaderStored(cells', chain', k) {
      if k < |chain| {
        assert HeaderStored(cells, chain, k);
        assert Apart(chain[k], b) && BlockOk(k, chain[k]);
      }
    }
  }

  // ----- free lists -----

  ghost function TakenSlot(m: Memory, i: nat, n: nat): Region
    requires i < |m.lists| && |m.lists[i]| > 0
  {
    var slot := m.lists[i][|m.lists[i]| - 1];
    Region(slot.block, slot.lo, slot.lo + n, Live)
  }

  /** The newest block of list i becomes a live array of n bytes. */
  ghost function WithTaken(m: Memory, i: nat, n: nat): Memory
    requires i < |m.lists| && |m.lists[i]| > 0
  {
    var last := |m.lists[i]| - 1;
    m.(regions := m.regions - {m.lists[i][last]} + {TakenSlot(m, i, n)}, lists := m.lists[i := m.lists[i][..last]])
  }

  lemma HeadFacts(cells: Cells, m: Memory, r: Registers, i: nat)
    requires Consistent(cells, m) && Mirrors(r, m) && i < |m.lists|
    ensures Holds(cells, r.cachedBlocks + 8 * i, HeadOf(m.lists[i]))
    ensures HeadOf(m.lists[i]) > 0 <==> |m.lists[i]| > 0
    ensures |m.lists[i]| > 0 ==> HeadOf(m.lists[i]) in cells && HeadOf(m.lists[i]) % 8 == 0
  {
    hide Partition, Layout, HeadersStored, AllNodesStored, TableAge, SumUsed, SumSizes;
    assert HeadStored(cells, m.lists, m.table, i);
    if |m.lists[i]| > 0 {
      assert SlotPlaced(m.lists, m.regions, i, |m.lists[i]| - 1);
      assert LinkStored(cells, m.lists[i], |m.lists[i]| - 1);
    }
  }

  lemma TakeEffect(cells: Cells, m: Memory, r: Registers, i: nat, n: nat)
    requires Consistent(cells, m) && Mirrors(r, m)
    requires i < |m.lists| && |m.lists[i]| > 0 && n <= Pow2(i + 4)
    ensures HeadOf(m.lists[i]) in cells
    ensures var cells' := cells[r.cachedBlocks + 8 * i := cells[HeadOf(m.lists[i])]];
            && Consistent(cells', WithTaken(m, i, n)) && Mirrors(r, WithTaken(m, i, n))
            && LiveUntouched(cells, cells', m.regions)
    ensures forall s :: s in m.regions && s.role.Live? ==> Disjoint(s, TakenSlot(m, i, n))
  {
    hide AllPlaced, AllDisjoint, AllBlockRegionsIn, HeadersStored, AllNodesStored, ListsStored, FreeListsPlaced,
      TableAge, SumUsed, SumSizes, LiveUntouched, Layout, Disjoint;
    HeadFacts(cells, m, r, i);
    var last := |m.lists[i]| - 1;
    var slot := m.lists[i][last];
    var cells' := cells[r.cachedBlocks + 8 * i := cells[slot.lo]];
    SlotFacts(m.lists, m.table, m.regions, i, last);
    TableEntry(m.lists, m.table, m.regions, i);
    Elsewhere(cells, cells', m.table, m);
    LiveUntouchedFewer(cells, cells', m.regions - {m.table}, m.regions);
    ReuseKeeps(m.chain, m.regions, slot, TakenSlot(m, i, n));
    TakePlaced(m, i, n);
    TakeStored(cells, m, i, n);
  }

  lemma SlotFacts(lists: seq<seq<Region>>, table: Region, regions: set<Region>, i: nat, j: nat)
    requires FreeListsPlaced(lists, table, regions) && i < |lists| && j < |lists[i]|
    ensures lists[i][j] in regions && CachedOk(i, j, lists[i][j])
  {
    assert SlotPlaced(lists, regions, i, j);
  }

  lemma TableEntry(lists: seq<seq<Region>>, table: Region, regions: set<Region>, i: nat)
    requires FreeListsPlaced(lists, table, regions) && i < |lists|
    ensures table in regions && table.role == FreeLists && table.lo <= table.lo + 8 * i < table.hi
  {
  }

  lemma TakePlaced(m: Memory, i: nat, n: nat)
    requires FreeListsPlaced(m.lists, m.table, m.regions) && i < |m.lists| && |m.lists[i]| > 0
    ensures FreeListsPlaced(WithTaken(m, i, n).lists, m.table, WithTaken(m, i, n).regions)
  {
    var m' := WithTaken(m, i, n);
    SlotFacts(m.lists, m.table, m.regions, i, |m.lists[i]| - 1);
    forall k, j | 0 <= k < |m'.lists| && 0 <= j < |m'.lists[k]| ensures SlotPlaced(m'.lists, m'.regions, k, j) {
      assert SlotPlaced(m.lists, m.regions, k, j);
    }
  }

  lemma TakeStored(cells: Cells, m: Memory, i: nat, n: nat)
    requires AllDisjoint(m.regions) && FreeListsPlaced(m.lists, m.table, m.regions)
    requires ListsStored(cells, m.lists, m.table)
    requires i < |m.lists| && |m.lists[i]| > 0
    requires HeadOf(m.lists[i]) in cells
    ensures ListsStored(cells[m.table.lo + 8 * i := cells[HeadOf(m.lists[i])]], WithTaken(m, i, n).lists, m.table)
  {
    var m' := WithTaken(m, i, n);
    var cells' := cells[m.table.lo + 8 * i := cells[HeadOf(m.lists[i])]];
    assert LinkStored(cells, m.lists[i], |m.lists[i]| - 1);
    forall k | 0 <= k < |m'.lists| ensures HeadStored(cells', m'.lists, m.table, k) {
      assert HeadStored(cells, m.lists, m.table, k);
    }
    forall k, j | 0 <= k < |m'.lists| && 0 <= j < |m'.lists[k]| ensures LinkStored(cells', m'.lists[k], j) {
      assert LinkStored(cells, m.lists[k], j) && SlotPlaced(m.lists, m.regions, k, j);
      assert Disjoint(m.lists[k][j], m.table);
    }
  }

  ghost function Slot(m: Memory, q: Region, size: nat, i: nat): Region
    requires i < |m.lists|
  {
    Region(q.block, q.lo, q.lo + size, Cached(i, |m.lists[i]|))
  }

  /** The live array q becomes the newest block of list i. */
  ghost function WithReturned(m: Memory, q: Region, size: nat, i: nat): Memory
    requires i < |m.lists|
  {
    m.(regions := m.regions - {q} + {Slot(m, q, size, i)}, lists := m.lists[i := m.lists[i] + [Slot(m, q, size, i)]])
  }

  ghost predicate LiveArray(m: Memory, q: Region, size: nat) {
    q in m.regions && q.role.Live? && q.lo % 8 == 0 && q.lo > 0 && 16 <= size && q.lo + size <= q.hi
  }

  lemma ReturnEffect(cells: Cells, m: Memory, r: Registers, q: Region, size: nat, i: nat)
    requires Consistent(cells, m) && Mirrors(r, m) && LiveArray(m, q, size)
    requires i < |m.lists| && Pow2(i + 4) <= size
    ensures r.cachedBlocks + 8 * i in cells
    ensures var cells' := cells[q.lo := cells[r.cachedBlocks + 8 * i]][r.cachedBlocks + 8 * i := q.lo];
            && Consistent(cells', WithReturned(m, q, size, i)) && Mirrors(r, WithReturned(m, q, size, i))
            && LiveUntouched(cells, cells', m.regions - {q})
  {
    hide AllPlaced, AllDisjoint, AllBlockRegionsIn, HeadersStored, AllNodesStored, ListsStored, FreeListsPlaced,
      TableAge, SumUsed, SumSizes, LiveUntouched, Layout, Disjoint;
    HeadFacts(cells, m, r, i);
    var linked := cells[q.lo := cells[r.cachedBlocks + 8 * i]];
    var cells' := linked[r.cachedBlocks + 8 * i := q.lo];
    LiveWrite(cells, linked, m, q);
    TableEntry(m.lists, m.table, m.regions, i);
    Elsewhere(linked, cells', m.table, m);
    LiveUntouchedFewer(linked, cells', m.regions - {m.table}, m.regions - {q});
    LiveUntouchedTwice(cells, linked, cells', m.regions - {q});
    ReuseKeeps(m.chain, m.regions, q, Slot(m, q, size, i));
    ReturnPlaced(m, q, size, i);
    ReturnStored(cells, m, q, size, i);
  }

  lemma ReturnPlaced(m: Memory, q: Region, size: nat, i: nat)
    requires FreeListsPlaced(m.lists, m.table, m.regions) && i < |m.lists| && LiveArray(m, q, size)
              && Pow2(i + 4) <= size
    ensures FreeListsPlaced(WithReturned(m, q, size, i).lists, m.table, WithReturned(m, q, size, i).regions)
  {
    var m' := WithReturned(m, q, size, i);
    forall k, j | 0 <= k < |m'.lists| && 0 <= j < |m'.lists[k]| ensures SlotPlaced(m'.lists, m'.regions, k, j) {
      if j < |m.lists[k]| {
        assert SlotPlaced(m.lists, m.regions, k, j);
      }
    }
  }

  lemma ReturnStored(cells: Cells, m: Memory, q: Region, size: nat, i: nat)
    requires AllDisjoint(m.regions) && FreeListsPlaced(m.lists, m.table, m.regions) && LiveArray(m, q, size)
    requires ListsStored(cells, m.lists, m.table) && i < |m.lists| && m.table.lo + 8 * i in cells
    ensures ListsStored(cells[q.lo := cells[m.table.lo + 8 * i]][m.table.lo + 8 * i := q.lo],
                        WithReturned(m, q, size, i).lists, m.table)
  {
    var m' := WithReturned(m, q, size, i);
    var cells' := cells[q.lo := cells[m.table.lo + 8 * i]][m.table.lo + 8 * i := q.lo];
    assert HeadStored(cells, m.lists, m.table, i);
    assert Disjoint(q, m.table);
    forall k | 0 <= k < |m'.lists| ensures HeadStored(cells', m'.lists, m.table, k) {
      assert HeadStored(cells, m.lists, m.table, k);
    }
    forall k, j | 0 <= k < |m'.lists| && 0 <= j < |m'.lists[k]| ensures LinkStored(cells', m'.lists[k], j) {
      if j < |m.lists[k]| {
        assert LinkStored(cells, m.lists[k], j) && SlotPlaced(m.lists, m.regions, k, j);
        CachedNotEmpty(m.lists, m.table, m.regions, k, j);
        assert Disjoint(m.lists[k][j], m.table) && Disjoint(m.lists[k][j], q);
      }
    }
  }

  lemma CachedNotEmpty(lists: seq<seq<Region>>, table: Region, regions: set<Region>, i: nat, j: nat)
    requires FreeListsPlaced(lists, table, regions) && i < |lists| && j < |lists[i]|
    ensures lists[i][j].lo < lists[i][j].hi
  {
    assert SlotPlaced(lists, regions, i, j);
  }

  // ----- replacing the table -----

  ghost function NewTable(q: Region, size: nat): Region {
    Region(q.block, q.lo, q.lo + 8 * (size / 8), FreeLists)
  }

  /** The live array q becomes the table; the old table is given up. */
  ghost function WithTable(m: Memory, q: Region, size: nat): Memory
    requires |m.lists| <= TableLength(size)
  {
    var regions := if |m.lists| == 0 then m.regions else m.regions - {m.table};
    m.(regions := regions - {q} + {NewTable(q, size)},
       lists := m.lists + seq(TableLength(size) - |m.lists|, _ => []),
       table := NewTable(q, size),
       growths := m.growths + 1)
  }

  /** The old entries are copied and the rest of the new table is cleared. */
  ghost predicate Copied(cells: Cells, cells': Cells, m: Memory, q: Region, size: nat) {
    && AgreeOutside(cells, cells', q.lo, q.lo + 8 * (size / 8))
    && forall k :: 0 <= k < size / 8 ==>
         Holds(cells', q.lo + 8 * k, Entry(m, k))
  }

  ghost function Entry(m: Memory, k: nat): Addr {
    if k < |m.lists| then HeadOf(m.lists[k]) else 0
  }

  lemma TableEffect(cells: Cells, cells': Cells, m: Memory, r: Registers, q: Region, size: nat)
    requires Consistent(cells, m) && Mirrors(r, m) && LiveArray(m, q, size) && size < TWO64
    requires |m.lists| <= ReturnIndex(size) && Copied(cells, cells', m, q, size)
    ensures |m.lists| <= TableLength(size)
    ensures Consistent(cells', WithTable(m, q, size))
    ensures Mirrors(r.(cachedBlocks := q.lo, cachedBlockLength := TableLength(size)), WithTable(m, q, size))
    ensures LiveUntouched(cells, cells', m.regions - {q})
  {
    hide AllPlaced, AllDisjoint, AllBlockRegionsIn, HeadersStored, AllNodesStored, ListsStored, FreeListsPlaced,
      TableAge, SumUsed, SumSizes, LiveUntouched, Layout, Disjoint, ReturnIndex;
    TableFits(size, |m.lists|);
    TableAges(m.growths, |m.lists|, size);
    var m' := WithTable(m, q, size);
    assert AgreeOutside(cells, cells', q.lo, q.hi);
    LiveWrite(cells, cells', m, q);
    ReuseKeeps(m.chain, m.regions, q, NewTable(q, size));
    DropTable(m, m.regions - {q} + {NewTable(q, size)});
    TablePlaced(m, q, size);
    TableStored(cells, cells', m, q, size);
    if |m.lists| > 0 {
      TableMoves(m, q, size);
      assert m'.regions == m.regions - {q} + {NewTable(q, size)} - {m.table};
    }
  }

  lemma TableMoves(m: Memory, q: Region, size: nat)
    requires AllDisjoint(m.regions) && FreeListsPlaced(m.lists, m.table, m.regions) && LiveArray(m, q, size)
    requires |m.lists| > 0
    ensures m.table.role.FreeLists? && NewTable(q, size) != m.table
  {
    assert Disjoint(q, m.table);
  }

  lemma DropTable(m: Memory, regions: set<Region>)
    requires Layout(m.chain) && Partition(m.chain, regions)
    ensures m.table.role.FreeLists? ==> Partition(m.chain, regions - {m.table})
  {
    if m.table.role.FreeLists? {
      forall k | 0 <= k < |m.chain| ensures BlockRegionsIn(k, m.chain[k], regions - {m.table}) {
        assert BlockRegionsIn(k, m.chain[k], regions);
      }
    }
  }

  lemma TablePlaced(m: Memory, q: Region, size: nat)
    requires FreeListsPlaced(m.lists, m.table, m.regions) && LiveArray(m, q, size) && |m.lists| <= TableLength(size)
    ensures FreeListsPlaced(WithTable(m, q, size).lists, NewTable(q, size), WithTable(m, q, size).regions)
  {
    var m' := WithTable(m, q, size);
    forall k, j | 0 <= k < |m'.lists| && 0 <= j < |m'.lists[k]| ensures SlotPlaced(m'.lists, m'.regions, k, j) {
      assert SlotPlaced(m.lists, m.regions, k, j);
    }
  }

  lemma TableStored(cells: Cells, cells': Cells, m: Memory, q: Region, size: nat)
    requires AllDisjoint(m.regions) && FreeListsPlaced(m.lists, m.table, m.regions) && LiveArray(m, q, size)
    requires ListsStored(cells, m.lists, m.table) && Copied(cells, cells', m, q, size) && |m.lists| <= TableLength(size)
    ensures ListsStored(cells', WithTable(m, q, size).lists, NewTable(q, size))
  {
    var m' := WithTable(m, q, size);
    forall k | 0 <= k < |m'.lists| ensures HeadStored(cells', m'.lists, NewTable(q, size), k) {
      assert Holds(cells', q.lo + 8 * k, Entry(m, k));
    }
    forall k, j | 0 <= k < |m'.lists| && 0 <= j < |m'.lists[k]| ensures LinkStored(cells', m'.lists[k], j) {
      assert m'.lists[k] == m.lists[k];
      assert LinkStored(cells, m.lists[k], j) && SlotPlaced(m.lists, m.regions, k, j);
      CachedNotEmpty(m.lists, m.table, m.regions, k, j);
      assert Disjoint(m.lists[k][j], q);
    }
  }
}
