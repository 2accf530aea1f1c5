/** Sizes: which free list serves a request, how large the next block is, and what a
    chain of blocks adds up to. */
module ArenaAccounting {
  import opened Bits
  import opened ArenaMemory

  // ----- free-list indices -----

  lemma Log2AtLeast(n: nat, k: nat)
    requires n >= Pow2(k)
    ensures Log2Floor(n) >= k
  {
    var l := Log2Floor(n);
    Log2FloorExact(n, l);
    if l < k {
      Pow2Monotone(l + 1, k);
    }
  }

  /** The list searched for an array of `size` bytes. */
  function TakeIndex(size: nat): nat
    requires size >= 16
  {
    Pow2Values();
    Log2AtLeast(size - 1, 3);
    Log2Floor(size - 1) - 3
  }

  /** The list an array of `size` bytes is returned to. */
  function ReturnIndex(size: nat): nat
    requires size >= 16
  {
    Pow2Values();
    Log2AtLeast(size, 4);
    Log2Floor(size) - 4
  }

  /** The two roundings meet: a list holds only arrays of at least 2^(i+4) bytes and is
      searched only for requests of at most that many. */
  lemma IndexBounds(n: nat, size: nat)
    requires n >= 16 && size >= 16
    ensures n <= Pow2(TakeIndex(n) + 4)
    ensures Pow2(ReturnIndex(size) + 4) <= size < Pow2(ReturnIndex(size) + 5)
  {
    hide Pow2, Log2Floor;
    Pow2Values();
    Log2AtLeast(n - 1, 3);
    Log2AtLeast(size, 4);
    Log2FloorExact(n - 1, Log2Floor(n - 1));
    Log2FloorExact(size, Log2Floor(size));
  }

  /** Any array found on the list of a request is large enough for it, and the two indices
      agree exactly when no smaller class would do. */
  lemma CachedIsLargeEnough(n: nat, size: nat)
    requires n >= 16 && size >= 16
    ensures TakeIndex(n) == ReturnIndex(size) ==> n <= size
    ensures TakeIndex(n) <= ReturnIndex(size) <==> n <= Pow2(ReturnIndex(size) + 4)
  {
    IndexBounds(n, size);
    var t, r := TakeIndex(n), ReturnIndex(size);
    if t > r {
      Pow2Values();
      Log2AtLeast(n - 1, 3);
      Log2FloorExact(n - 1, t + 3);
      Pow2Monotone(r + 4, t + 3);
    } else {
      Pow2Monotone(t + 4, r + 4);
    }
  }

  /** A returned array that has no list yet is large enough to become a table with a list
      for its own size and more entries than the table it replaces. */
  lemma TableFits(size: nat, length: nat)
    requires 16 <= size < TWO64 && length <= ReturnIndex(size)
    ensures length <= ReturnIndex(size) < size / 8
    ensures ReturnIndex(size) < 60
  {
    hide Pow2, Log2Floor;
    IndexBounds(16, size);
    var i := ReturnIndex(size);
    Pow2Add(4, i);
    Pow2Values();
    IndexBelowPower(i);
    if i >= 60 {
      Pow2Monotone(64, i + 4);
    }
  }

  lemma {:induction false} IndexBelowPower(i: nat)
    ensures i < Pow2(i)
  {
    if i > 0 {
      IndexBelowPower(i - 1);
    }
  }

  /** How far the table can have come after a number of replacements. */
  ghost predicate TableAge(growths: nat, length: nat) {
    && growths <= 3
    && (growths == 0 <==> length == 0)
    && (growths >= 1 ==> length >= 2)
    && (growths >= 2 ==> length >= 8)
    && (growths >= 3 ==> length == 64)
  }

  function TableLength(size: nat): nat {
    if size / 8 < 64 then size / 8 else 64
  }

  /** With 8-byte pointers a table is replaced at most three times. */
  lemma TableAges(growths: nat, length: nat, size: nat)
    requires TableAge(growths, length) && 16 <= size < TWO64 && length <= ReturnIndex(size)
    ensures TableAge(growths + 1, TableLength(size))
  {
    TableFits(size, length);
    IndexBounds(16, size);
    Pow2Values();
    if growths == 1 {
      Pow2Monotone(6, ReturnIndex(size) + 4);
    } else if growths == 2 {
      Pow2Monotone(12, ReturnIndex(size) + 4);
    }
  }

  // ----- block sizes -----

  /** The last three fields say whether the hooks of that name are set. */
  datatype AllocationPolicy = AllocationPolicy(startBlockSize: nat, maxBlockSize: nat,
                                               blockAlloc: bool, blockDealloc: bool, metricsCollector: bool)
  {
    /** The comparison as the source has it: both sizes against the default maximum. */
    predicate IsDefault() {
      startBlockSize == 8192 && maxBlockSize == 8192 && !blockAlloc && !blockDealloc && !metricsCollector
    }
  }

  const DEFAULT_POLICY := AllocationPolicy(256, 8192, false, false, false)

  /** Only a policy that starts with 8192 bytes counts as default; a default-constructed one, which
      starts with 256, does not. */
  lemma DefaultIsNotRecognised(p: AllocationPolicy)
    ensures DEFAULT_POLICY.startBlockSize == 256 && !DEFAULT_POLICY.IsDefault()
    ensures p.IsDefault() <==> p == AllocationPolicy(8192, 8192, false, false, false)
  {
  }

  /** The size AllocateMemory asks the backing allocator for. `lastSize` is 0 for a first block. */
  function NextBlockSize(policy: AllocationPolicy, lastSize: nat, minBytes: nat): (size: nat)
    ensures size >= BLOCK_HEADER_SIZE + minBytes
  {
    var doubled := (2 * lastSize) % TWO64;
    var wanted :=
      if lastSize == 0 then policy.startBlockSize
      else if doubled < policy.maxBlockSize then doubled else policy.maxBlockSize;
    if wanted < BLOCK_HEADER_SIZE + minBytes then BLOCK_HEADER_SIZE + minBytes else wanted
  }

  // ----- totals over a chain -----

  /** SerialArena::Memory: a block as the deallocator is handed it. */
  datatype Chunk = Chunk(base: Addr, size: nat)

  ghost function TotalSize(chunks: seq<Chunk>): nat {
    if chunks == [] then 0 else chunks[0].size + TotalSize(chunks[1..])
  }

  ghost function SumUsed(chain: seq<Block>): nat {
    if |chain| == 0 then 0 else SumUsed(chain[..|chain| - 1]) + chain[|chain| - 1].used
  }

  ghost function SumNodes(chain: seq<Block>): nat {
    if |chain| == 0 then 0 else SumNodes(chain[..|chain| - 1]) + |chain[|chain| - 1].nodes|
  }

  ghost function SumSizes(chain: seq<Block>): nat {
    if |chain| == 0 then 0 else SumSizes(chain[..|chain| - 1]) + chain[|chain| - 1].size
  }

  /** What a block offers for objects and cleanup nodes. */
  ghost function Capacity(k: nat, b: Block): int {
    Top(k, b) - Low(k, b)
  }

  ghost function SumCapacity(chain: seq<Block>): int {
    if |chain| == 0 then 0
    else SumCapacity(chain[..|chain| - 1]) + Capacity(|chain| - 1, chain[|chain| - 1])
  }

  ghost function Filled(b: Block): nat {
    b.used + 16 * |b.nodes|
  }

  /** Bytes consumed: objects and cleanup nodes. */
  ghost function Consumed(chain: seq<Block>): nat {
    SumUsed(chain) + 16 * SumNodes(chain)
  }

  /** All nodes, in the order they were registered. */
  ghost function Registered(chain: seq<Block>): seq<Node> {
    if |chain| == 0 then [] else Registered(chain[..|chain| - 1]) + chain[|chain| - 1].nodes
  }

  /** The newest block's share of each total. */
  lemma NewestShare(chain: seq<Block>)
    requires |chain| > 0
    ensures SumUsed(chain) == (if |chain| == 1 then 0 else SumUsed(chain[..|chain| - 1])) + Newest(chain).used
    ensures Consumed(chain) >= Filled(Newest(chain))
  {
    if |chain| == 1 {
      assert chain[..0] == [];
    }
  }

  lemma NewestSplit(chain: seq<Block>, b: Block)
    requires |chain| > 0
    ensures WithNewest(chain, b)[..|chain| - 1] == chain[..|chain| - 1]
    ensures SumUsed(WithNewest(chain, b)) == SumUsed(chain[..|chain| - 1]) + b.used
    ensures SumNodes(WithNewest(chain, b)) == SumNodes(chain[..|chain| - 1]) + |b.nodes|
    ensures SumSizes(WithNewest(chain, b)) == SumSizes(chain[..|chain| - 1]) + b.size
    ensures Registered(WithNewest(chain, b)) == Registered(chain[..|chain| - 1]) + b.nodes
  {
    assert WithNewest(chain, b)[..|chain| - 1] == chain[..|chain| - 1];
  }

  lemma AppendSplit(chain: seq<Block>, b: Block)
    ensures (chain + [b])[..|chain|] == chain
    ensures SumUsed(chain + [b]) == SumUsed(chain) + b.used
    ensures SumNodes(chain + [b]) == SumNodes(chain) + |b.nodes|
    ensures SumSizes(chain + [b]) == SumSizes(chain) + b.size
    ensures SumCapacity(chain + [b]) == SumCapacity(chain) + Capacity(|chain|, b)
    ensures Registered(chain + [b]) == Registered(chain) + b.nodes
  {
    assert (chain + [b])[..|chain|] == chain;
  }

  // ----- the amortised bound -----

  /** The blocks behind the newest one offer less than twice what was consumed, not counting
      the newest block twice. `pending` is what a block just added is about to serve. */
  ghost predicate Amortised(chain: seq<Block>, pending: nat)
    requires |chain| > 0
  {
    |chain| > 1 ==>
      SumCapacity(chain[..|chain| - 1]) < 2 * Consumed(chain) - Filled(Newest(chain)) + pending
  }

  lemma AmortisedNewBlock(chain: seq<Block>, b: Block, need: nat)
    requires |chain| > 0 && Amortised(chain, 0)
    requires Capacity(|chain| - 1, Newest(chain)) < Filled(Newest(chain)) + need
    requires b.used == 0 && b.nodes == []
    ensures Amortised(chain + [b], need)
  {
    AppendSplit(chain, b);
    var older := chain[..|chain| - 1];
    assert SumCapacity(chain) == SumCapacity(older) + Capacity(|chain| - 1, Newest(chain));
    if |chain| == 1 {
      assert older == [];
      assert Consumed(chain) == Filled(Newest(chain)) by {
        assert SumUsed(older) == 0 && SumNodes(older) == 0;
      }
    }
  }
}
