/** Which blocks a chain can come to have by allocating from it, and for which policies and first
    blocks every cleanup registered on the way is run. */
module ArenaGrowth {
  import opened Bits
  import opened ArenaMemory
  import opened ArenaAccounting
  import opened ArenaCleanup

  /** The calls that change a chain: `mem` is where the backing allocator puts a new block. */
  datatype Call = Allocate(n: nat, mem: Addr) | Register(n: nat, node: Node, mem: Addr)
  {
    /** The bytes that must be free in the newest block. */
    function Need(): nat {
      match this
      case Allocate(n, _) => n
      case Register(n, _, _) => n + CLEANUP_SIZE
    }
  }

  ghost function Room(chain: seq<Block>): int
    requires |chain| > 0
  {
    Stop(|chain| - 1, Newest(chain)) - Fill(|chain| - 1, Newest(chain))
  }

  ghost predicate CallOk(policy: AllocationPolicy, chain: seq<Block>, call: Call)
    requires |chain| > 0
  {
    && call.n % 8 == 0
    && (call.Need() <= Room(chain)
        || (call.Need() + BLOCK_HEADER_SIZE < TWO64
            && Offers(chain, call.mem, NextBlockSize(policy, Newest(chain).size, call.Need()))))
  }

  ghost function WithRoomFor(policy: AllocationPolicy, chain: seq<Block>, need: nat, mem: Addr): (r: seq<Block>)
    requires |chain| > 0
    ensures |r| > 0
  {
    if need <= Room(chain) then chain
    else chain + [Block(mem, NextBlockSize(policy, Newest(chain).size, need), 0, [])]
  }

  ghost function AfterCall(policy: AllocationPolicy, chain: seq<Block>, call: Call): (r: seq<Block>)
    requires |chain| > 0
    ensures |r| > 0
  {
    var bumped := Bumped(WithRoomFor(policy, chain, call.Need(), call.mem), call.n);
    if call.Register? then Noted(bumped, call.node) else bumped
  }

  ghost predicate CallsOk(policy: AllocationPolicy, chain: seq<Block>, calls: seq<Call>)
    requires |chain| > 0
    decreases |calls|
  {
    calls == []
    || (CallsOk(policy, chain, Front(calls)) && CallOk(policy, AfterCalls(policy, chain, Front(calls)), Last(calls)))
  }

  ghost function AfterCalls(policy: AllocationPolicy, chain: seq<Block>, calls: seq<Call>): (r: seq<Block>)
    requires |chain| > 0
    ensures |r| > 0
    decreases |calls|
  {
    if calls == [] then chain else AfterCall(policy, AfterCalls(policy, chain, Front(calls)), Last(calls))
  }

  function Front(calls: seq<Call>): (r: seq<Call>)
    requires |calls| > 0
    ensures |r| == |calls| - 1
  {
    calls[..|calls| - 1]
  }

  function Last(calls: seq<Call>): Call
    requires |calls| > 0
  {
    calls[|calls| - 1]
  }

  ghost function First(base: Addr, size: nat): seq<Block> { [Block(base, size, 0, [])] }

  /** The first block can hold a SerialArena. */
  ghost predicate FirstOk(base: Addr, size: nat) {
    && base > 0 && base % 8 == 0 && base + size < TWO64
    && size >= BLOCK_HEADER_SIZE + SERIAL_ARENA_SIZE
  }

  /** The chain comes from a first block of that size by calls with that policy. */
  ghost predicate Grown(policy: AllocationPolicy, size: nat, chain: seq<Block>) {
    exists base, calls ::
      && FirstOk(base, size) && CallsOk(policy, First(base, size), calls)
      && chain == AfterCalls(policy, First(base, size), calls)
  }

  lemma GrownFirst(policy: AllocationPolicy, base: Addr, size: nat)
    requires FirstOk(base, size)
    ensures Grown(policy, size, First(base, size))
  {
    assert CallsOk(policy, First(base, size), []) && First(base, size) == AfterCalls(policy, First(base, size), []);
  }

  lemma GrownMore(policy: AllocationPolicy, size: nat, chain: seq<Block>, call: Call)
    requires |chain| > 0 && Grown(policy, size, chain) && CallOk(policy, chain, call)
    ensures Grown(policy, size, AfterCall(policy, chain, call))
  {
    hide CallOk, AfterCall, FirstOk;
    var base, calls :|
      && FirstOk(base, size) && CallsOk(policy, First(base, size), calls)
      && chain == AfterCalls(policy, First(base, size), calls);
    var more := calls + [call];
    assert Front(more) == calls && Last(more) == call;
    assert CallsOk(policy, First(base, size), more);
    assert AfterCall(policy, chain, call) == AfterCalls(policy, First(base, size), more);
  }

  /** However large the first block was, the chain still comes from it. */
  ghost predicate StillGrown(policy: AllocationPolicy, chain: seq<Block>, chain': seq<Block>) {
    forall size :: Grown(policy, size, chain) ==> Grown(policy, size, chain')
  }

  lemma CallGrows(policy: AllocationPolicy, chain: seq<Block>, call: Call)
    requires |chain| > 0 && CallOk(policy, chain, call)
    ensures StillGrown(policy, chain, AfterCall(policy, chain, call))
  {
    hide Grown, CallOk, AfterCall;
    forall size | Grown(policy, size, chain) ensures Grown(policy, size, AfterCall(policy, chain, call)) {
      GrownMore(policy, size, chain, call);
    }
  }

  /** What a caller can check of a policy and the size of the first block: blocks never grow large
      enough for a node and something else, or the largest size and the first doubling are
      multiples of 8 (the doubling only if it is below the largest size). */
  predicate CleanupsSafe(policy: AllocationPolicy, size: nat) {
    var doubled := 2 * size % TWO64;
    || policy.maxBlockSize <= 40
    || (policy.maxBlockSize % 8 == 0 && (doubled >= policy.maxBlockSize || doubled % 8 == 0))
  }

  /** It is enough that the largest size is in words and the first block in half words. */
  lemma WordsAreSafe(policy: AllocationPolicy, size: nat)
    requires policy.maxBlockSize % 8 == 0 && size % 4 == 0
    ensures CleanupsSafe(policy, size)
  {
    Doubled4(size);
  }

  lemma Doubled4(size: nat)
    requires size % 4 == 0
    ensures 2 * size % TWO64 % 8 == 0
  {
    assert size == 4 * (size / 4);
    var half := size / 4;
    assert 2 * size == 8 * half;
    assert TWO64 == 8 * 0x2000_0000_0000_0000;
    assert 8 * half == TWO64 * (8 * half / TWO64) + 8 * half % TWO64;
  }

  // ----- safe policies -----

  /** A later block a node of which cannot be passed over: it is whole words long, or too short
      for a node. */
  ghost predicate Tidy(b: Block) { b.size % 8 == 0 || b.size < 40 }

  ghost predicate AllTidy(policy: AllocationPolicy, chain: seq<Block>) {
    && Layout(chain)
    && CleanupsSafe(policy, Newest(chain).size)
    && forall k :: 1 <= k < |chain| ==> Tidy(chain[k])
  }

  lemma TidyRuns(k: nat, b: Block)
    requires BlockOk(k, b) && (k > 0 ==> Tidy(b))
    ensures Runs(k, b)
  {
  }

  lemma NextIsTidy(policy: AllocationPolicy, size: nat, need: nat)
    requires CleanupsSafe(policy, size) && need % 8 == 0 && size > 0
    ensures var next := NextBlockSize(policy, size, need);
            (next % 8 == 0 || next < 40) && CleanupsSafe(policy, next)
  {
    var next := NextBlockSize(policy, size, need);
    if next % 8 == 0 {
      Doubled4(next);
    }
  }

  lemma TidyBlock(policy: AllocationPolicy, chain: seq<Block>, need: nat, mem: Addr)
    requires AllTidy(policy, chain) && need % 8 == 0
    requires need <= Room(chain) || Offers(chain, mem, NextBlockSize(policy, Newest(chain).size, need))
    ensures var chain' := WithRoomFor(policy, chain, need, mem);
            AllTidy(policy, chain') && need <= Room(chain')
  {
    hide NextBlockSize, CleanupsSafe;
    if need > Room(chain) {
      assert BlockOk(|chain| - 1, Newest(chain));
      NextIsTidy(policy, Newest(chain).size, need);
    }
  }

  lemma TidyFill(policy: AllocationPolicy, chain: seq<Block>, b: Block)
    requires AllTidy(policy, chain) && BlockOk(|chain| - 1, b)
    requires b.base == Newest(chain).base && b.size == Newest(chain).size
    ensures AllTidy(policy, WithNewest(chain, b))
  {
    hide CleanupsSafe;
    LayoutWithNewest(chain, b);
  }

  lemma TidyCall(policy: AllocationPolicy, chain: seq<Block>, call: Call)
    requires AllTidy(policy, chain) && CallOk(policy, chain, call)
    ensures AllTidy(policy, AfterCall(policy, chain, call))
  {
    hide CleanupsSafe, AllTidy, NextBlockSize, WithRoomFor, Offers;
    TidyLayout(policy, chain);
    TidyBlock(policy, chain, call.Need(), call.mem);
    var roomy := WithRoomFor(policy, chain, call.Need(), call.mem);
    TidyLayout(policy, roomy);
    var b := Newest(roomy).(used := Newest(roomy).used + call.n);
    TidyFill(policy, roomy, b);
    var bumped := Bumped(roomy, call.n);
    if call.Register? {
      TidyFill(policy, bumped, b.(nodes := b.nodes + [call.node]));
    }
  }

  lemma TidyLayout(policy: AllocationPolicy, chain: seq<Block>)
    requires AllTidy(policy, chain)
    ensures Layout(chain) && BlockOk(|chain| - 1, Newest(chain))
  {
  }

  lemma {:induction false} TidyCalls(policy: AllocationPolicy, base: Addr, size: nat, calls: seq<Call>)
    requires FirstOk(base, size) && CleanupsSafe(policy, size) && CallsOk(policy, First(base, size), calls)
    ensures AllTidy(policy, AfterCalls(policy, First(base, size), calls))
    decreases |calls|
  {
    hide CallOk, AfterCall, CleanupsSafe;
    if calls != [] {
      TidyCalls(policy, base, size, Front(calls));
      TidyCall(policy, AfterCalls(policy, First(base, size), Front(calls)), Last(calls));
    }
  }

  ghost predicate AllRun(chain: seq<Block>) {
    RunOrder(chain) == Reverse(Registered(chain))
  }

  /** Whatever is allocated and registered, every cleanup runs, in reverse order. */
  lemma SafeRuns(policy: AllocationPolicy, size: nat, chain: seq<Block>)
    requires CleanupsSafe(policy, size) && Grown(policy, size, chain)
    ensures AllRun(chain)
  {
    hide CallsOk, AfterCalls, CleanupsSafe, FirstOk, Runs, BlockOk;
    var base, calls :|
      && FirstOk(base, size) && CallsOk(policy, First(base, size), calls)
      && chain == AfterCalls(policy, First(base, size), calls);
    TidyCalls(policy, base, size, calls);
    forall k | 0 <= k < |chain| ensures Runs(k, chain[k]) {
      TidyRuns(k, chain[k]);
    }
    RunsInReverse(chain);
  }

  // ----- policies that are not safe -----

  /** Where the blocks of the runs below are put. */
  ghost function Bases(k: nat): Addr
    requires k < 3
  {
    if k == 0 then 0x1000_0000_0000_0000 else if k == 1 then 0x2000_0000_0000_0000 else 0x4000_0000_0000_0000
  }

  /** The newest block is full, block k is the next, and there is room for it behind the others. */
  ghost predicate FullUpTo(chain: seq<Block>, k: nat) {
    && 0 < k < 3 && |chain| == k && Room(chain) == 0
    && (forall j :: 0 <= j < k ==> chain[j].base == Bases(j) && chain[j].size < Bases(j))
  }

  lemma FillFirst(policy: AllocationPolicy, size: nat) returns (call: Call)
    requires FirstOk(Bases(0), size) && size < Bases(0)
    ensures var chain := First(Bases(0), size);
            && CallOk(policy, chain, call)
            && FullUpTo(AfterCall(policy, chain, call), 1) && AfterCall(policy, chain, call)[0].size == size
  {
    call := Allocate(size - size % 8 - 104, 0);
  }

  lemma BlockAdded(policy: AllocationPolicy, chain: seq<Block>, k: nat, n: nat)
    requires FullUpTo(chain, k) && n > 0 && NextBlockSize(policy, chain[k - 1].size, n) < Bases(1)
    ensures var size := NextBlockSize(policy, chain[k - 1].size, n);
            && Newest(chain) == chain[k - 1] && Offers(chain, Bases(k), size)
            && WithRoomFor(policy, chain, n, Bases(k)) == chain + [Block(Bases(k), size, 0, [])]
  {
    hide NextBlockSize;
    var size := NextBlockSize(policy, chain[k - 1].size, n);
    forall j | 0 <= j < |chain| ensures Apart(chain[j], Block(Bases(k), size, 0, [])) {
      assert Bases(j) + Bases(j) <= Bases(k);
    }
  }

  lemma Used(chain: seq<Block>, b: Block, n: nat)
    ensures Bumped(chain + [b], n) == chain + [b.(used := b.used + n)]
  {
  }

  lemma FirstNode(chain: seq<Block>, b: Block, node: Node)
    requires b.nodes == []
    ensures Noted(chain + [b], node) == chain + [b.(nodes := [node])]
  {
    assert b.nodes + [node] == [node];
  }

  lemma AddBlock(policy: AllocationPolicy, chain: seq<Block>, k: nat, n: nat) returns (call: Call)
    requires FullUpTo(chain, k) && n % 8 == 0 && n > 0
    requires n + BLOCK_HEADER_SIZE < TWO64 && NextBlockSize(policy, chain[k - 1].size, n) < Bases(1)
    ensures var b := Block(Bases(k), NextBlockSize(policy, chain[k - 1].size, n), n, []);
            CallOk(policy, chain, call) && AfterCall(policy, chain, call) == chain + [b]
  {
    hide NextBlockSize;
    call := Allocate(n, Bases(k));
    BlockAdded(policy, chain, k, n);
    Used(chain, Block(Bases(k), NextBlockSize(policy, chain[k - 1].size, n), 0, []), n);
  }

  lemma AddNode(policy: AllocationPolicy, chain: seq<Block>, k: nat, node: Node) returns (call: Call)
    requires FullUpTo(chain, k) && NextBlockSize(policy, chain[k - 1].size, CLEANUP_SIZE) < Bases(0)
    ensures var b := Block(Bases(k), NextBlockSize(policy, chain[k - 1].size, CLEANUP_SIZE), 0, [node]);
            CallOk(policy, chain, call) && AfterCall(policy, chain, call) == chain + [b]
  {
    hide NextBlockSize;
    call := Register(0, node, Bases(k));
    BlockAdded(policy, chain, k, CLEANUP_SIZE);
    var b := Block(Bases(k), NextBlockSize(policy, chain[k - 1].size, CLEANUP_SIZE), 0, []);
    Used(chain, b, 0);
    FirstNode(chain, b, node);
  }

  lemma OddNodeIsSkipped(chain: seq<Block>, b: Block)
    requires |chain| > 0 && b.size % 8 != 0 && |b.nodes| == 1
    ensures !AllRun(chain + [b])
  {
    hide RunOrder, Registered;
    RunsInReverse(chain + [b]);
    assert !Runs(|chain|, (chain + [b])[|chain|]);
  }

  /** A request so large that the block after it has the largest size. */
  lemma LargeRequest(policy: AllocationPolicy, size: nat) returns (n: nat)
    requires 104 <= size < Bases(0) && policy.maxBlockSize < Bases(0)
    requires policy.maxBlockSize % 8 != 0 && !CleanupsSafe(policy, size)
    ensures n % 8 == 0 && n > 0 && n + 24 < Bases(1) && NextBlockSize(policy, size, n) == n + 24
    ensures var odd := NextBlockSize(policy, n + 24, CLEANUP_SIZE); odd % 8 != 0 && odd < Bases(0)
  {
    n := policy.maxBlockSize - policy.maxBlockSize % 8;
  }

  lemma OddDoubling(policy: AllocationPolicy, size: nat)
    requires 104 <= size < Bases(0) && policy.maxBlockSize < Bases(0)
    requires policy.maxBlockSize % 8 == 0 && !CleanupsSafe(policy, size)
    ensures var odd := NextBlockSize(policy, size, CLEANUP_SIZE); odd % 8 != 0 && odd < Bases(0)
  {
  }

  lemma FullChain(chain: seq<Block>, b: Block)
    requires FullUpTo(chain, 1) && b.base == Bases(1) && b.size == b.used + 24 < Bases(1) && b.nodes == []
    ensures FullUpTo(chain + [b], 2)
  {
  }

  /** Where the condition fails, a few calls lead to a cleanup that is not run. */
  lemma UnsafeSkips(policy: AllocationPolicy, size: nat, node: Node) returns (chain: seq<Block>)
    requires FirstOk(Bases(0), size) && size < Bases(0) && policy.maxBlockSize < Bases(0)
    requires !CleanupsSafe(policy, size)
    ensures Grown(policy, size, chain) && !AllRun(chain)
  {
    hide Grown, CallOk, AfterCall, AllRun, CallsOk, AfterCalls, NextBlockSize, CleanupsSafe, Room;
    chain := First(Bases(0), size);
    GrownFirst(policy, Bases(0), size);
    var call := FillFirst(policy, size);
    GrownMore(policy, size, chain, call);
    chain := AfterCall(policy, chain, call);
    var k := 1;
    if policy.maxBlockSize % 8 != 0 {
      var n := LargeRequest(policy, size);
      call := AddBlock(policy, chain, 1, n);
      GrownMore(policy, size, chain, call);
      FullChain(chain, Block(Bases(1), n + 24, n, []));
      chain := AfterCall(policy, chain, call);
      k := 2;
    } else {
      OddDoubling(policy, size);
    }
    var b := Block(Bases(k), NextBlockSize(policy, chain[k - 1].size, CLEANUP_SIZE), 0, [node]);
    call := AddNode(policy, chain, k, node);
    GrownMore(policy, size, chain, call);
    OddNodeIsSkipped(chain, b);
    chain := AfterCall(policy, chain, call);
  }

  /** Every cleanup registered with an arena is run, in reverse order, whatever is allocated and
      registered with it, if and only if its policy and first block are safe. */
  lemma CleanupsRunExactly(policy: AllocationPolicy, size: nat)
    requires BLOCK_HEADER_SIZE + SERIAL_ARENA_SIZE <= size < Bases(0) && policy.maxBlockSize < Bases(0)
    ensures (forall chain :: Grown(policy, size, chain) ==> AllRun(chain)) <==> CleanupsSafe(policy, size)
  {
    hide Grown, AllRun, CleanupsSafe;
    if CleanupsSafe(policy, size) {
      forall chain | Grown(policy, size, chain) ensures AllRun(chain) {
        SafeRuns(policy, size, chain);
      }
    } else {
      var chain := UnsafeSkips(policy, size, Node(0, 0));
      assert Grown(policy, size, chain) && !AllRun(chain);
    }
  }

  // ----- how large the blocks become -----

  /** Twice the block before, up to the largest size. */
  function Regular(policy: AllocationPolicy, before: nat): nat {
    if 2 * before % 0x1_0000_0000_0000_0000 < policy.maxBlockSize
    then 2 * before % 0x1_0000_0000_0000_0000
    else policy.maxBlockSize
  }

  /** Header, objects and cleanup nodes take up all of the block. */
  ghost predicate Full(b: Block) { 24 + b.used + 16 * |b.nodes| == b.size }

  /** A block is of regular size, or larger for the one request that fills it. */
  ghost predicate Sized(policy: AllocationPolicy, before: Block, b: Block) {
    b.size == Regular(policy, before.size) || (b.size > Regular(policy, before.size) && Full(b))
  }

  ghost predicate AllSized(policy: AllocationPolicy, chain: seq<Block>) {
    && Layout(chain)
    && forall k :: 1 <= k < |chain| ==> Sized(policy, chain[k - 1], chain[k])
  }

  lemma {:induction false} GrownSizes(policy: AllocationPolicy, base: Addr, size: nat, calls: seq<Call>)
    requires FirstOk(base, size) && CallsOk(policy, First(base, size), calls)
    ensures var chain := AfterCalls(policy, First(base, size), calls);
            AllSized(policy, chain) && chain[0].size == size
    decreases |calls|
  {
    hide CallOk, AfterCall, Sized;
    if calls != [] {
      GrownSizes(policy, base, size, Front(calls));
      CallSizes(policy, AfterCalls(policy, First(base, size), Front(calls)), Last(calls));
    }
  }

  /** The newest block, if it is more than regular, takes exactly what is about to be served. */
  ghost predicate SizedFor(policy: AllocationPolicy, chain: seq<Block>, need: nat) {
    && Layout(chain) && need <= Room(chain)
    && (forall k :: 1 <= k < |chain| - 1 ==> Sized(policy, chain[k - 1], chain[k]))
    && (|chain| > 1 ==>
          && var before, b := chain[|chain| - 2].size, Newest(chain);
          && (b.size == Regular(policy, before)
              || (b.size > Regular(policy, before) && 24 + b.used + 16 * |b.nodes| + need == b.size)))
  }

  lemma RoomSizes(policy: AllocationPolicy, chain: seq<Block>, need: nat, mem: Addr)
    requires AllSized(policy, chain)
    requires need <= Room(chain) || Offers(chain, mem, NextBlockSize(policy, Newest(chain).size, need))
    ensures SizedFor(policy, WithRoomFor(policy, chain, need, mem), need)
    ensures WithRoomFor(policy, chain, need, mem)[0].size == chain[0].size
  {
    hide Apart;
    var chain' := WithRoomFor(policy, chain, need, mem);
    if need > Room(chain) {
      var b := Newest(chain');
      assert BlockOk(|chain| - 1, Newest(chain));
      assert BlockOk(|chain|, b);
      forall i, j | 0 <= i < j < |chain'| ensures Apart(chain'[i], chain'[j]) {
        if j == |chain| {
          assert Apart(chain[i], b);
        } else {
          assert Apart(chain[i], chain[j]);
        }
      }
      assert chain'[|chain'| - 2] == Newest(chain);
    } else if |chain| > 1 {
      assert Sized(policy, chain[|chain| - 2], chain[|chain| - 1]);
      if Full(Newest(chain)) {
        RoomOfFull(|chain| - 1, Newest(chain));
      }
    }
  }

  lemma RoomOfFull(k: nat, b: Block)
    requires k > 0 && Full(b)
    ensures Stop(k, b) - Fill(k, b) == 0
  {
  }

  /** What has been served is in the block. */
  lemma ServedSizes(policy: AllocationPolicy, chain: seq<Block>, need: nat, b: Block)
    requires SizedFor(policy, chain, need) && BlockOk(|chain| - 1, b)
    requires b.base == Newest(chain).base && b.size == Newest(chain).size
    requires b.used + 16 * |b.nodes| == Newest(chain).used + 16 * |Newest(chain).nodes| + need
    ensures AllSized(policy, WithNewest(chain, b)) && WithNewest(chain, b)[0].size == chain[0].size
  {
    hide Regular;
    LayoutWithNewest(chain, b);
    var chain' := WithNewest(chain, b);
    forall k | 1 <= k < |chain'| ensures Sized(policy, chain'[k - 1], chain'[k]) {
      if k < |chain| - 1 {
        assert Sized(policy, chain[k - 1], chain[k]);
      }
    }
  }

  lemma CallSizes(policy: AllocationPolicy, chain: seq<Block>, call: Call)
    requires AllSized(policy, chain) && CallOk(policy, chain, call)
    ensures AllSized(policy, AfterCall(policy, chain, call)) && AfterCall(policy, chain, call)[0].size == chain[0].size
  {
    hide AllSized, SizedFor, NextBlockSize, WithRoomFor, Offers, Layout;
    SizedLayout(policy, chain);
    RoomSizes(policy, chain, call.Need(), call.mem);
    var roomy := WithRoomFor(policy, chain, call.Need(), call.mem);
    SizedForLayout(policy, roomy, call.Need());
    var b := Newest(roomy).(used := Newest(roomy).used + call.n);
    if call.Register? {
      b := b.(nodes := b.nodes + [call.node]);
      assert AfterCall(policy, chain, call) == WithNewest(roomy, b);
    }
    ServedSizes(policy, roomy, call.Need(), b);
  }

  lemma SizedLayout(policy: AllocationPolicy, chain: seq<Block>)
    requires AllSized(policy, chain)
    ensures Layout(chain) && |chain| > 0
  {
  }

  lemma SizedForLayout(policy: AllocationPolicy, chain: seq<Block>, need: nat)
    requires SizedFor(policy, chain, need)
    ensures Layout(chain) && BlockOk(|chain| - 1, Newest(chain)) && need <= Room(chain)
  {
  }

  /** Every block after the first is twice the one before, up to the largest size, or larger for
      one request, and then that request fills it. */
  lemma BlockSizes(policy: AllocationPolicy, size: nat, chain: seq<Block>)
    requires Grown(policy, size, chain)
    ensures |chain| > 0 && chain[0].size == size
    ensures forall k :: 1 <= k < |chain| ==> Sized(policy, chain[k - 1], chain[k])
  {
    hide CallsOk, AfterCalls, FirstOk, Sized;
    var base, calls :|
      && FirstOk(base, size) && CallsOk(policy, First(base, size), calls)
      && chain == AfterCalls(policy, First(base, size), calls);
    GrownSizes(policy, base, size, calls);
  }

  /** While no block had to be made larger for a request, block k has 2^k times the size of the
      first one, up to the largest size. */
  lemma {:induction false} DoublingSizes(policy: AllocationPolicy, size: nat, chain: seq<Block>, k: nat)
    requires Grown(policy, size, chain) && 1 <= k < |chain|
    requires size < 0x8000_0000_0000_0000 && policy.maxBlockSize < 0x8000_0000_0000_0000
    requires forall j :: 1 <= j <= k ==> !Full(chain[j])
    ensures chain[k].size == if size * Pow2(k) < policy.maxBlockSize then size * Pow2(k) else policy.maxBlockSize
  {
    hide Grown, Full, Regular;
    BlockSizes(policy, size, chain);
    assert Sized(policy, chain[k - 1], chain[k]);
    if k == 1 {
      assert Pow2(1) == 2;
      DoubledOnce(policy, size, size);
    } else {
      DoublingSizes(policy, size, chain, k - 1);
      DoubledOnce(policy, size * Pow2(k - 1), chain[k - 1].size);
      assert size * Pow2(k) == 2 * (size * Pow2(k - 1));
    }
  }

  lemma DoubledOnce(policy: AllocationPolicy, ideal: nat, before: nat)
    requires policy.maxBlockSize < 0x8000_0000_0000_0000 && before < 0x8000_0000_0000_0000
    requires before == ideal || before == policy.maxBlockSize <= ideal
    ensures Regular(policy, before) == if 2 * ideal < policy.maxBlockSize then 2 * ideal else policy.maxBlockSize
  {
  }
}
