/** The memory of one SerialArena, described by values: the blocks it owns, the
    regions those blocks are cut into, and what the allocator itself keeps in them.

    A block of the chain (oldest first) is cut like this:

      base   +24        Fill                Stop              Top    base+size
      | header | objects ... | free ... | cleanup nodes ... | (rest) |

    In the oldest block the SerialArena object itself follows the header. */
module ArenaMemory {
  import opened Bits

  type Addr = nat

  /** sizeof(Block), sizeof(CleanupNode) and sizeof(SerialArena) with 8-byte pointers. */
  const BLOCK_HEADER_SIZE: nat := 24
  const CLEANUP_SIZE: nat := 16
  const SERIAL_ARENA_SIZE: nat := 80

  datatype Node = Node(elem: int, cleanup: int)

  datatype Block = Block(base: Addr, size: nat, used: nat, nodes: seq<Node>)

  datatype Role = Header | Embedded | Live | Cleanup(at: nat) | FreeLists | Cached(list: nat, at: nat)

  datatype Region = Region(block: nat, lo: Addr, hi: Addr, role: Role)

  // ----- blocks -----

  ghost function Low(k: nat, b: Block): Addr {
    b.base + BLOCK_HEADER_SIZE + if k == 0 then SERIAL_ARENA_SIZE else 0
  }

  /** Where the first cleanup node of block k ends. Only the oldest block rounds its size down. */
  ghost function Top(k: nat, b: Block): Addr {
    b.base + if k == 0 then b.size - b.size % 8 else b.size
  }

  ghost function Fill(k: nat, b: Block): Addr {
    Low(k, b) + b.used
  }

  ghost function Stop(k: nat, b: Block): int {
    Top(k, b) - 16 * |b.nodes|
  }

  ghost function NodeAt(k: nat, b: Block, j: nat): int {
    Top(k, b) - 16 * (j + 1)
  }

  ghost predicate Apart(b: Block, c: Block) {
    b.base + b.size <= c.base || c.base + c.size <= b.base
  }

  ghost predicate BlockOk(k: nat, b: Block) {
    && 0 < b.base && b.base % 8 == 0 && b.base + b.size < TWO64
    && b.used % 8 == 0
    && Fill(k, b) <= Stop(k, b)
  }

  ghost predicate Layout(chain: seq<Block>) {
    && |chain| > 0
    && (forall k :: 0 <= k < |chain| ==> BlockOk(k, chain[k]))
    && (forall i, j :: 0 <= i < j < |chain| ==> Apart(chain[i], chain[j]))
  }

  // ----- regions -----

  ghost predicate Disjoint(r: Region, s: Region) {
    r.hi <= s.lo || s.hi <= r.lo
  }

  ghost function HeaderRegion(k: nat, b: Block): Region {
    Region(k, b.base, b.base + BLOCK_HEADER_SIZE, Header)
  }

  ghost function EmbeddedRegion(b: Block): Region {
    Region(0, b.base + BLOCK_HEADER_SIZE, b.base + BLOCK_HEADER_SIZE + SERIAL_ARENA_SIZE, Embedded)
  }

  ghost predicate IsNodeRegion(k: nat, b: Block, j: nat, r: Region) {
    r.block == k && r.lo == NodeAt(k, b, j) && r.hi == r.lo + CLEANUP_SIZE && r.role == Cleanup(j)
  }

  ghost function NodeRegion(k: nat, b: Block, j: nat): (r: Region)
    requires BlockOk(k, b) && j < |b.nodes|
    ensures IsNodeRegion(k, b, j, r)
  {
    Region(k, NodeAt(k, b, j), NodeAt(k, b, j) + CLEANUP_SIZE, Cleanup(j))
  }

  /** The region lies in block b, outside the free gap between Fill and Stop. */
  ghost predicate Inside(k: nat, b: Block, r: Region) {
    && b.base <= r.lo <= r.hi <= b.base + b.size
    && (r.hi <= Fill(k, b) || Stop(k, b) <= r.lo)
  }

  ghost predicate Placed(chain: seq<Block>, r: Region) {
    r.block < |chain| && Inside(r.block, chain[r.block], r)
  }

  ghost predicate BlockRegionsIn(k: nat, b: Block, regions: set<Region>)
    requires BlockOk(k, b)
  {
    && HeaderRegion(k, b) in regions
    && (forall j :: 0 <= j < |b.nodes| ==> NodeRegion(k, b, j) in regions)
  }

  ghost predicate AllPlaced(chain: seq<Block>, regions: set<Region>) {
    forall r :: r in regions ==> Placed(chain, r)
  }

  ghost predicate AllDisjoint(regions: set<Region>) {
    forall r, s :: r in regions && s in regions && r != s ==> Disjoint(r, s)
  }

  ghost predicate AllBlockRegionsIn(chain: seq<Block>, regions: set<Region>)
    requires Layout(chain)
  {
    && EmbeddedRegion(chain[0]) in regions
    && (forall k :: 0 <= k < |chain| ==> BlockRegionsIn(k, chain[k], regions))
  }

  /** Every region has its place in one block, no two overlap, and the headers, the
      SerialArena object and the cleanup nodes are among them. */
  ghost predicate Partition(chain: seq<Block>, regions: set<Region>)
    requires Layout(chain)
  {
    AllPlaced(chain, regions) && AllDisjoint(regions) && AllBlockRegionsIn(chain, regions)
  }

  ghost predicate CachedOk(i: nat, j: nat, r: Region) {
    r.role == Cached(i, j) && r.lo % 8 == 0 && r.lo > 0 && r.lo + Pow2(i + 4) <= r.hi
  }

  /** Entry i of the table heads the list of the blocks of at least 2^(i+4) bytes. */
  ghost predicate FreeListsPlaced(lists: seq<seq<Region>>, table: Region, regions: set<Region>) {
    && |lists| <= 64
    && (|lists| > 0 ==>
          && table in regions && table.role == FreeLists
          && table.lo % 8 == 0 && table.lo + 8 * |lists| <= table.hi)
    && (forall i, j :: 0 <= i < |lists| && 0 <= j < |lists[i]| ==> SlotPlaced(lists, regions, i, j))
  }

  ghost predicate SlotPlaced(lists: seq<seq<Region>>, regions: set<Region>, i: nat, j: nat)
    requires i < |lists| && j < |lists[i]|
  {
    lists[i][j] in regions && CachedOk(i, j, lists[i][j])
  }

  // ----- contents: what the allocator keeps in its memory -----

  type Cells = map<int, int>

  ghost predicate Holds(cells: Cells, a: int, v: int) {
    a >= 0 && a in cells && cells[a] == v
  }

  /** A block header: next (the older block), size, and start, which is the cleanup limit
      of every block but the newest. */
  ghost predicate HeaderStored(cells: Cells, chain: seq<Block>, k: nat)
    requires k < |chain|
  {
    && Holds(cells, chain[k].base, if k == 0 then 0 else chain[k - 1].base)
    && Holds(cells, chain[k].base + 8, chain[k].size)
    && chain[k].base + 16 in cells
    && (k < |chain| - 1 ==> cells[chain[k].base + 16] == Stop(k, chain[k]))
  }

  ghost predicate HeadersStored(cells: Cells, chain: seq<Block>) {
    forall k :: 0 <= k < |chain| ==> HeaderStored(cells, chain, k)
  }

  ghost predicate NodesStored(cells: Cells, k: nat, b: Block) {
    forall j :: 0 <= j < |b.nodes| ==>
      Holds(cells, NodeAt(k, b, j), b.nodes[j].elem) && Holds(cells, NodeAt(k, b, j) + 8, b.nodes[j].cleanup)
  }

  ghost predicate AllNodesStored(cells: Cells, chain: seq<Block>) {
    forall k :: 0 <= k < |chain| ==> NodesStored(cells, k, chain[k])
  }

  ghost function HeadOf(list: seq<Region>): Addr {
    if |list| == 0 then 0 else list[|list| - 1].lo
  }

  ghost function NextOf(list: seq<Region>, j: nat): Addr
    requires j < |list|
  {
    if j == 0 then 0 else list[j - 1].lo
  }

  /** Entry i of the table points to the newest block of list i; each block points to the
      one cached before it. */
  ghost predicate ListsStored(cells: Cells, lists: seq<seq<Region>>, table: Region) {
    && (forall i :: 0 <= i < |lists| ==> HeadStored(cells, lists, table, i))
    && (forall i, j :: 0 <= i < |lists| && 0 <= j < |lists[i]| ==> LinkStored(cells, lists[i], j))
  }

  ghost predicate HeadStored(cells: Cells, lists: seq<seq<Region>>, table: Region, i: nat)
    requires i < |lists|
  {
    Holds(cells, table.lo + 8 * i, HeadOf(lists[i]))
  }

  ghost predicate LinkStored(cells: Cells, list: seq<Region>, j: nat)
    requires j < |list|
  {
    Holds(cells, list[j].lo, NextOf(list, j))
  }

  ghost predicate AgreeOutside(cells: Cells, cells': Cells, lo: int, hi: int) {
    forall a :: a in cells && !(lo <= a < hi) ==> a in cells' && cells'[a] == cells[a]
  }

  lemma HeadersUntouched(cells: Cells, cells': Cells, r: Region, chain: seq<Block>, regions: set<Region>)
    requires Layout(chain) && Partition(chain, regions) && HeadersStored(cells, chain)
    requires r in regions && !r.role.Header? && AgreeOutside(cells, cells', r.lo, r.hi)
    ensures HeadersStored(cells', chain)
  {
    forall k | 0 <= k < |chain| ensures HeaderStored(cells', chain, k) {
      assert HeaderStored(cells, chain, k);
      assert BlockRegionsIn(k, chain[k], regions);
      assert Disjoint(HeaderRegion(k, chain[k]), r);
    }
  }

  lemma NodesUntouched(cells: Cells, cells': Cells, r: Region, chain: seq<Block>, regions: set<Region>)
    requires Layout(chain) && Partition(chain, regions) && AllNodesStored(cells, chain)
    requires r in regions && !r.role.Cleanup? && AgreeOutside(cells, cells', r.lo, r.hi)
    ensures AllNodesStored(cells', chain)
  {
    hide AgreeOutside, NodesStored, BlockRegionsIn, AllPlaced, Apart, AllDisjoint;
    forall k | 0 <= k < |chain| ensures NodesStored(cells', k, chain[k]) {
      NodesUntouchedIn(cells, cells', r, k, chain[k], regions);
    }
  }

  lemma NodesUntouchedIn(cells: Cells, cells': Cells, r: Region, k: nat, b: Block, regions: set<Region>)
    requires BlockOk(k, b) && NodesStored(cells, k, b) && BlockRegionsIn(k, b, regions) && AllDisjoint(regions)
    requires r in regions && !r.role.Cleanup? && AgreeOutside(cells, cells', r.lo, r.hi)
    ensures NodesStored(cells', k, b)
  {
    forall j | 0 <= j < |b.nodes|
      ensures Holds(cells', NodeAt(k, b, j), b.nodes[j].elem)
      ensures Holds(cells', NodeAt(k, b, j) + 8, b.nodes[j].cleanup)
    {
      assert Holds(cells, NodeAt(k, b, j), b.nodes[j].elem);
      assert Disjoint(NodeRegion(k, b, j), r);
    }
  }

  lemma ListsUntouched(cells: Cells, cells': Cells, r: Region, lists: seq<seq<Region>>, table: Region,
                       regions: set<Region>)
    requires AllDisjoint(regions) && FreeListsPlaced(lists, table, regions) && ListsStored(cells, lists, table)
    requires r in regions && !r.role.FreeLists? && !r.role.Cached? && AgreeOutside(cells, cells', r.lo, r.hi)
    ensures ListsStored(cells', lists, table)
  {
    forall i | 0 <= i < |lists| ensures HeadStored(cells', lists, table, i) {
      assert Disjoint(table, r);
      assert HeadStored(cells, lists, table, i);
    }
    forall i, j | 0 <= i < |lists| && 0 <= j < |lists[i]| ensures LinkStored(cells', lists[i], j) {
      assert SlotPlaced(lists, regions, i, j) && Disjoint(lists[i][j], r);
      assert LinkStored(cells, lists[i], j);
    }
  }

  // ----- how the allocator's steps change the description -----

  ghost function Newest(chain: seq<Block>): Block
    requires |chain| > 0
  {
    chain[|chain| - 1]
  }

  ghost function WithNewest(chain: seq<Block>, b: Block): seq<Block>
    requires |chain| > 0
  {
    chain[|chain| - 1 := b]
  }

  lemma AddRegion(chain: seq<Block>, regions: set<Region>, t: Region)
    requires AllPlaced(chain, regions) && AllDisjoint(regions)
    requires Placed(chain, t) && forall r :: r in regions ==> Disjoint(r, t)
    ensures AllPlaced(chain, regions + {t}) && AllDisjoint(regions + {t})
  {
  }

  lemma LayoutWithNewest(chain: seq<Block>, b: Block)
    requires Layout(chain) && BlockOk(|chain| - 1, b)
    requires b.base == Newest(chain).base && b.size == Newest(chain).size
    ensures Layout(WithNewest(chain, b))
  {
    var chain' := WithNewest(chain, b);
    forall i, j | 0 <= i < j < |chain'| ensures Apart(chain'[i], chain'[j]) {
      assert Apart(chain[i], chain[j]);
    }
  }

  /** A region cut from the newest block's free gap overlaps nothing. */
  lemma GapIsFree(chain: seq<Block>, r: Region, t: Region)
    requires Layout(chain) && Placed(chain, r)
    requires Fill(|chain| - 1, Newest(chain)) <= t.lo <= t.hi <= Stop(|chain| - 1, Newest(chain))
    ensures Disjoint(r, t)
  {
    var last := |chain| - 1;
    assert BlockOk(last, chain[last]);
    if r.block < last {
      assert Apart(chain[r.block], chain[last]);
    }
  }

  lemma PlacedWithNewest(chain: seq<Block>, r: Region, b: Block)
    requires Layout(chain) && Placed(chain, r)
    requires b.base == Newest(chain).base && b.size == Newest(chain).size
    requires b.used >= Newest(chain).used && |b.nodes| >= |Newest(chain).nodes|
    ensures Placed(WithNewest(chain, b), r)
  {
  }

  lemma BlockRegionsKept(k: nat, b: Block, b': Block, regions: set<Region>)
    requires BlockOk(k, b) && BlockOk(k, b') && BlockRegionsIn(k, b, regions)
    requires b'.base == b.base && b'.size == b.size && b'.nodes == b.nodes
    ensures BlockRegionsIn(k, b', regions)
  {
    forall j | 0 <= j < |b'.nodes| ensures NodeRegion(k, b', j) in regions {
      assert NodeRegion(k, b', j) == NodeRegion(k, b, j);
    }
  }

  ghost function Taken(chain: seq<Block>, n: nat): Region
    requires |chain| > 0
  {
    var p := Fill(|chain| - 1, Newest(chain));
    Region(|chain| - 1, p, p + n, Live)
  }

  ghost function Bumped(chain: seq<Block>, n: nat): seq<Block>
    requires |chain| > 0
  {
    WithNewest(chain, Newest(chain).(used := Newest(chain).used + n))
  }

  lemma TakenBounds(chain: seq<Block>, n: nat)
    requires |chain| > 0 && Fill(|chain| - 1, Newest(chain)) + n <= Stop(|chain| - 1, Newest(chain))
    ensures var t := Taken(chain, n);
            && Fill(|chain| - 1, Newest(chain)) <= t.lo <= t.hi <= Stop(|chain| - 1, Newest(chain))
            && Placed(Bumped(chain, n), t)
  {
  }

  lemma BumpBlock(k: nat, b: Block, n: nat)
    requires BlockOk(k, b) && n % 8 == 0 && Fill(k, b) + n <= Stop(k, b)
    ensures BlockOk(k, b.(used := b.used + n))
  {
  }

  lemma BumpKeeps(chain: seq<Block>, regions: set<Region>, n: nat)
    requires Layout(chain) && Partition(chain, regions)
    requires n % 8 == 0 && Fill(|chain| - 1, Newest(chain)) + n <= Stop(|chain| - 1, Newest(chain))
    ensures Layout(Bumped(chain, n)) && Partition(Bumped(chain, n), regions + {Taken(chain, n)})
    ensures forall r :: r in regions ==> Disjoint(r, Taken(chain, n))
  {
    hide Placed, Disjoint, BlockOk, Apart, Fill, Stop;
    var last, b := |chain| - 1, Newest(chain).(used := Newest(chain).used + n);
    var chain', t := Bumped(chain, n), Taken(chain, n);
    TakenBounds(chain, n);
    BumpBlock(last, chain[last], n);
    LayoutWithNewest(chain, b);
    forall r | r in regions ensures Placed(chain', r) && Disjoint(r, t) {
      PlacedWithNewest(chain, r, b);
      GapIsFree(chain, r, t);
    }
    AddRegion(chain', regions, t);
    forall k | 0 <= k < |chain'| ensures BlockRegionsIn(k, chain'[k], regions + {t}) {
      assert BlockOk(k, chain[k]) && BlockRegionsIn(k, chain[k], regions);
      BlockRegionsKept(k, chain[k], chain'[k], regions);
    }
  }

  ghost function Noted(chain: seq<Block>, node: Node): seq<Block>
    requires |chain| > 0
  {
    WithNewest(chain, Newest(chain).(nodes := Newest(chain).nodes + [node]))
  }

  lemma NoteBlock(k: nat, b: Block, node: Node)
    requires BlockOk(k, b) && Fill(k, b) + CLEANUP_SIZE <= Stop(k, b)
    ensures BlockOk(k, b.(nodes := b.nodes + [node]))
  {
  }

  lemma NoteBounds(chain: seq<Block>, node: Node)
    requires |chain| > 0 && BlockOk(|chain| - 1, Newest(Noted(chain, node)))
    requires Fill(|chain| - 1, Newest(chain)) + CLEANUP_SIZE <= Stop(|chain| - 1, Newest(chain))
    ensures var last := |chain| - 1; var t := NodeRegion(last, Newest(Noted(chain, node)), |chain[last].nodes|);
            && Fill(last, chain[last]) <= t.lo <= t.hi <= Stop(last, chain[last])
            && Placed(Noted(chain, node), t) && !Disjoint(t, t)
  {
  }

  lemma NoteKeeps(chain: seq<Block>, regions: set<Region>, node: Node)
    requires Layout(chain) && Partition(chain, regions)
    requires Fill(|chain| - 1, Newest(chain)) + CLEANUP_SIZE <= Stop(|chain| - 1, Newest(chain))
    ensures Layout(Noted(chain, node))
    ensures var last := |chain| - 1; var t := NodeRegion(last, Noted(chain, node)[last], |chain[last].nodes|);
            && Partition(Noted(chain, node), regions + {t})
            && t !in regions && (forall r :: r in regions ==> Disjoint(r, t))
  {
    hide Placed, Disjoint, Apart, BlockOk, Fill, Stop;
    var last, b := |chain| - 1, Newest(chain).(nodes := Newest(chain).nodes + [node]);
    var chain' := Noted(chain, node);
    assert BlockOk(last, chain[last]);
    NoteBlock(last, chain[last], node);
    LayoutWithNewest(chain, b);
    var t := NodeRegion(last, b, |chain[last].nodes|);
    NoteBounds(chain, node);
    forall r | r in regions ensures Placed(chain', r) && Disjoint(r, t) {
      PlacedWithNewest(chain, r, b);
      GapIsFree(chain, r, t);
    }
    AddRegion(chain', regions, t);
    forall k | 0 <= k < |chain'| ensures BlockRegionsIn(k, chain'[k], regions + {t}) {
      assert BlockRegionsIn(k, chain[k], regions);
      if k == last {
        NotedRegions(k, chain[k], node, regions, t);
      }
    }
  }

  lemma NotedRegions(k: nat, b: Block, node: Node, regions: set<Region>, t: Region)
    requires var b' := b.(nodes := b.nodes + [node]);
             BlockOk(k, b) && BlockOk(k, b') && BlockRegionsIn(k, b, regions) && t == NodeRegion(k, b', |b.nodes|)
    ensures BlockRegionsIn(k, b.(nodes := b.nodes + [node]), regions + {t})
  {
    var b' := b.(nodes := b.nodes + [node]);
    forall j | 0 <= j < |b'.nodes| ensures NodeRegion(k, b', j) in regions + {t} {
      if j < |b.nodes| {
        assert NodeRegion(k, b', j) == NodeRegion(k, b, j);
      }
    }
  }

  /** What the backing allocator promises about memory it hands out. */
  ghost predicate Offers(chain: seq<Block>, base: Addr, size: nat) {
    && 0 < base && base % 8 == 0 && base + size < TWO64
    && forall k :: 0 <= k < |chain| ==> Apart(chain[k], Block(base, size, 0, []))
  }

  lemma NewBlockKeeps(chain: seq<Block>, regions: set<Region>, base: Addr, size: nat)
    requires Layout(chain) && Partition(chain, regions)
    requires Offers(chain, base, size) && size >= BLOCK_HEADER_SIZE
    ensures var b := Block(base, size, 0, []);
            && Layout(chain + [b]) && Partition(chain + [b], regions + {HeaderRegion(|chain|, b)})
            && forall r :: r in regions ==> Disjoint(r, HeaderRegion(|chain|, b))
  {
    var b := Block(base, size, 0, []);
    var chain' := chain + [b];
    var h := HeaderRegion(|chain|, b);
    assert Layout(chain');
    forall r | r in regions ensures Placed(chain', r) && Disjoint(r, h) {
      assert Placed(chain, r);
      assert Apart(chain[r.block], b);
    }
    AddRegion(chain', regions, h);
    forall k | 0 <= k < |chain'| ensures BlockRegionsIn(k, chain'[k], regions + {h}) {
      if k < |chain| {
        assert BlockRegionsIn(k, chain[k], regions);
      }
    }
  }

  /** Giving part of a region a new role. */
  lemma ReuseKeeps(chain: seq<Block>, regions: set<Region>, r: Region, r': Region)
    requires Layout(chain) && Partition(chain, regions)
    requires r in regions && !r.role.Header? && !r.role.Embedded? && !r.role.Cleanup?
    requires r'.block == r.block && r.lo <= r'.lo <= r'.hi <= r.hi
    ensures Partition(chain, regions - {r} + {r'})
    ensures forall s :: s in regions && s != r ==> Disjoint(s, r')
  {
    forall s | s in regions && s != r ensures Disjoint(s, r') {
      assert Disjoint(s, r);
    }
    assert Placed(chain, r);
    AddRegion(chain, regions - {r}, r');
    forall k | 0 <= k < |chain| ensures BlockRegionsIn(k, chain[k], regions - {r} + {r'}) {
      assert BlockRegionsIn(k, chain[k], regions);
    }
  }
}
