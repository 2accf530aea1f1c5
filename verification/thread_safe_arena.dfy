/** ThreadSafeArena: the list of SerialArenas and what Reset and the destructor do with their
    blocks. Blocks, SerialArenas and the stored policy are records in memory, keyed by address;
    handing a block to the deallocator removes every record that lies in it, so each read
    below is checked to be of memory that was not freed. */
module ThreadSafeArenas {
  import opened ArenaMemory
  import opened ArenaAccounting

  const POLICY_SIZE: nat := 40  // sizeof(AllocationPolicy)

  datatype BlockHeader = BlockHeader(next: Addr, size: nat)

  /** `cleanups` is what the SerialArena's own CleanupList runs, in that order. */
  datatype SerialRecord = SerialRecord(owner: int, head: Addr, next: Addr, spaceAllocated: nat, cleanups: seq<Node>)

  /** A SerialArena, its blocks, newest first, and its cleanups. */
  datatype Serial = Serial(addr: Addr, owner: int, chain: seq<Chunk>, cleanups: seq<Node>)

  // ----- lists and totals -----

  ghost function AllChunks(list: seq<Serial>): seq<Chunk> {
    if list == [] then [] else list[0].chain + AllChunks(list[1..])
  }

  ghost function AllCleanups(list: seq<Serial>): seq<Node> {
    if list == [] then [] else list[0].cleanups + AllCleanups(list[1..])
  }

  lemma {:induction false} TotalSizeConcat(s: seq<Chunk>, t: seq<Chunk>)
    ensures TotalSize(s + t) == TotalSize(s) + TotalSize(t)
  {
    if s == [] {
      assert s + t == t;
    } else {
      assert (s + t)[1..] == s[1..] + t;
      TotalSizeConcat(s[1..], t);
    }
  }

  lemma TotalSizeOne(c: Chunk, t: seq<Chunk>)
    ensures TotalSize([c] + t) == c.size + TotalSize(t)
  {
    assert ([c] + t)[1..] == t;
  }

  ghost predicate Away(b: Chunk, c: Chunk) {
    b.base + b.size <= c.base || c.base + c.size <= b.base
  }

  ghost predicate AllApart(chunks: seq<Chunk>) {
    forall i, j :: 0 <= i < j < |chunks| ==> Away(chunks[i], chunks[j])
  }

  ghost predicate AwayFromAll(c: Chunk, chunks: seq<Chunk>) {
    forall j :: 0 <= j < |chunks| ==> Away(c, chunks[j])
  }

  function Within(a: Addr, c: Chunk): bool {
    c.base <= a < c.base + c.size
  }

  // ----- the records of a list -----

  type Blocks = map<Addr, BlockHeader>
  type Serials = map<Addr, SerialRecord>

  ghost predicate ChainAt(p: Addr, chain: seq<Chunk>, blocks: Blocks)
    decreases chain
  {
    if chain == [] then p == 0
    else
      && p == chain[0].base && p > 0 && chain[0].size >= BLOCK_HEADER_SIZE
      && p in blocks && blocks[p].size == chain[0].size
      && ChainAt(blocks[p].next, chain[1..], blocks)
  }

  /** The SerialArena lies in its oldest block, after the header. */
  ghost predicate SerialAt(s: Serial, blocks: Blocks, serials: Serials) {
    && |s.chain| > 0
    && s.addr == s.chain[|s.chain| - 1].base + BLOCK_HEADER_SIZE
    && s.chain[|s.chain| - 1].size >= BLOCK_HEADER_SIZE + SERIAL_ARENA_SIZE
    && s.addr in serials
    && serials[s.addr].owner == s.owner
    && ChainAt(serials[s.addr].head, s.chain, blocks)
    && serials[s.addr].spaceAllocated == TotalSize(s.chain)
    && serials[s.addr].cleanups == s.cleanups
  }

  ghost predicate ListAt(p: Addr, list: seq<Serial>, blocks: Blocks, serials: Serials)
    decreases list
  {
    if list == [] then p == 0
    else
      && p == list[0].addr && p > 0
      && SerialAt(list[0], blocks, serials)
      && ListAt(serials[p].next, list[1..], blocks, serials)
  }

  function BlocksWithout(blocks: Blocks, c: Chunk): Blocks {
    map a | a in blocks && !Within(a, c) :: blocks[a]
  }

  function SerialsWithout(serials: Serials, c: Chunk): Serials {
    map a | a in serials && !Within(a, c) :: serials[a]
  }

  lemma {:induction false} ChainSurvives(p: Addr, chain: seq<Chunk>, blocks: Blocks, c: Chunk)
    requires ChainAt(p, chain, blocks) && AwayFromAll(c, chain)
    ensures ChainAt(p, chain, BlocksWithout(blocks, c))
    decreases chain
  {
    if chain != [] {
      assert Away(c, chain[0]);
      assert AwayFromAll(c, chain[1..]) by {
        forall j | 0 <= j < |chain[1..]| ensures Away(c, chain[1..][j]) {
          assert Away(c, chain[j + 1]);
        }
      }
      ChainSurvives(blocks[p].next, chain[1..], blocks, c);
    }
  }

  lemma AwayParts(c: Chunk, s: seq<Chunk>, t: seq<Chunk>)
    ensures AwayFromAll(c, s + t) <==> AwayFromAll(c, s) && AwayFromAll(c, t)
  {
    if AwayFromAll(c, s + t) {
      forall j | 0 <= j < |s| ensures Away(c, s[j]) { assert Away(c, (s + t)[j]); }
      forall j | 0 <= j < |t| ensures Away(c, t[j]) { assert Away(c, (s + t)[|s| + j]); }
    }
  }

  lemma {:induction false} ListSurvives(p: Addr, list: seq<Serial>, blocks: Blocks, serials: Serials, c: Chunk)
    requires ListAt(p, list, blocks, serials) && AwayFromAll(c, AllChunks(list))
    ensures ListAt(p, list, BlocksWithout(blocks, c), SerialsWithout(serials, c))
    decreases list
  {
    if list != [] {
      var s := list[0];
      AwayParts(c, s.chain, AllChunks(list[1..]));
      ChainSurvives(serials[p].head, s.chain, blocks, c);
      assert Away(c, s.chain[|s.chain| - 1]);
      ListSurvives(serials[p].next, list[1..], blocks, serials, c);
    }
  }

  lemma ApartParts(s: seq<Chunk>, t: seq<Chunk>)
    requires AllApart(s + t)
    ensures AllApart(s) && AllApart(t)
    ensures forall i :: 0 <= i < |s| ==> AwayFromAll(s[i], t)
  {
    forall i, j | 0 <= i < j < |s| ensures Away(s[i], s[j]) { assert Away((s + t)[i], (s + t)[j]); }
    forall i, j | 0 <= i < j < |t| ensures Away(t[i], t[j]) { assert Away((s + t)[|s| + i], (s + t)[|s| + j]); }
    forall i, j | 0 <= i < |s| && 0 <= j < |t| ensures Away(s[i], t[j]) { assert Away((s + t)[i], (s + t)[|s| + j]); }
  }

  lemma AwayFromLater(s: seq<Chunk>, k: nat)
    requires AllApart(s) && k < |s|
    ensures AwayFromAll(s[k], s[k + 1..])
  {
    var t := s[k + 1..];
    forall j | 0 <= j < |t| ensures Away(s[k], t[j]) {
      assert Away(s[k], s[k + 1 + j]);
    }
  }

  ghost predicate InLast(a: Addr, chunks: seq<Chunk>) {
    |chunks| > 0 && Within(a, chunks[|chunks| - 1])
  }

  lemma Regroup(chain: seq<Chunk>, later: seq<Chunk>, policy: Addr)
    requires |chain| > 0 && AllApart(chain + later)
    ensures var last := [chain[|chain| - 1]];
            && chain[..|chain| - 1] + (last + later) == chain + later && AllApart(last + later)
            && (InLast(policy, chain + later) ==> InLast(policy, last + later))
            && TotalSize(chain + later) == TotalSize(chain) + TotalSize(later)
            && TotalSize(last + later) == last[0].size + TotalSize(later)
  {
    TotalSizeConcat(chain, later);
    TotalSizeOne(chain[|chain| - 1], later);
    var front, last := chain[..|chain| - 1], [chain[|chain| - 1]];
    assert front + (last + later) == chain + later;
    ApartParts(front, last + later);
  }

  lemma HeldFacts(c: Chunk, later: seq<Chunk>, policy: Addr)
    requires AllApart([c] + later) && later != []
    ensures AllApart(later) && AwayFromAll(c, later)
    ensures InLast(policy, [c] + later) ==> InLast(policy, later) && !Within(policy, c)
    ensures TotalSize([c] + later) == c.size + TotalSize(later)
  {
    ApartParts([c], later);
    assert [c][0] == c;
    TotalSizeOne(c, later);
    var all := [c] + later;
    assert all[|all| - 1] == later[|later| - 1];
    assert Away(all[0], all[|all| - 1]);
  }

  lemma EarlierWithoutPolicy(chain: seq<Chunk>, later: seq<Chunk>, policy: Addr)
    requires |chain| > 0 && AllApart(chain + later)
    ensures InLast(policy, chain + later) ==> forall k :: 0 <= k < |chain| - 1 ==> !Within(policy, chain[k])
  {
    PolicyOutside(chain + later, |chain| - 1, policy);
    assert forall k :: 0 <= k < |chain| - 1 ==> (chain + later)[k] == chain[k];
  }

  lemma ListHead(p: Addr, list: seq<Serial>, blocks: Blocks, serials: Serials)
    requires ListAt(p, list, blocks, serials) && (p != 0 || list != [])
    ensures list != [] && list[0].chain != []
    ensures AllChunks(list) == list[0].chain + AllChunks(list[1..])
  {
  }

  lemma SplitLast(s: seq<Chunk>, c: Chunk, t: seq<Chunk>, u: seq<Chunk>)
    requires s + [c] == t + u && |s| >= |t|
    ensures u != [] && c == u[|u| - 1] && s == t + u[..|u| - 1]
  {
    assert (s + [c])[|s|] == c;
    assert s == (s + [c])[..|s|] == (t + u)[..|s|];
  }

  class ThreadSafeArena {
    var tagAndId: nat
    var policy: Addr      // where the AllocationPolicy is stored, 0 if there is none
    var userOwned: bool   // the first block was passed in by the user
    var threads: Addr     // the list of SerialArenas
    var hint: Addr
    var blocks: Blocks
    var serials: Serials
    var policies: map<Addr, AllocationPolicy>
    var freed: seq<Chunk> // what the deallocator was handed, in order
    var released: nat     // the byte count the deallocator adds to
    var ran: seq<Node>    // the cleanups run, in order
    ghost var list: seq<Serial>
    ghost var initial: Chunk  // the user's block, if there is one

    /** All blocks in the order the list is walked, each SerialArena's newest block first. */
    ghost function Chunks(): seq<Chunk>
      reads this
    {
      AllChunks(list)
    }

    ghost predicate PolicyStored()
      reads this
    {
      policy != 0 ==>
        && |Chunks()| > 0
        && var first := Chunks()[|Chunks()| - 1];
        && policy == first.base + BLOCK_HEADER_SIZE + SERIAL_ARENA_SIZE
        && first.size >= BLOCK_HEADER_SIZE + SERIAL_ARENA_SIZE + POLICY_SIZE
        && policy in policies && !policies[policy].IsDefault()
    }

    ghost predicate Valid()
      reads this
    {
      && ListAt(threads, list, blocks, serials)
      && AllApart(Chunks())
      && PolicyStored()
      && (userOwned ==> |Chunks()| > 0 && Chunks()[|Chunks()| - 1] == initial)
      && (userOwned ==> initial.size >= BLOCK_HEADER_SIZE + SERIAL_ARENA_SIZE)
    }

    /** What a reset hands to the deallocator: all blocks, without the user's, which is the
        oldest block of the last SerialArena. */
    ghost function ToFree(): seq<Chunk>
      reads this
      requires userOwned ==> |Chunks()| > 0
    {
      if userOwned then Chunks()[..|Chunks()| - 1] else Chunks()
    }

    /** A new arena; `id` is the lifecycle id its Init draws. */
    constructor (messageOwned: bool, id: nat)
      requires id % 2 == 0
      ensures Valid() && Chunks() == [] && policy == 0 && !userOwned && freed == [] && ran == []
      ensures tagAndId == id + if messageOwned then 1 else 0
    {
      tagAndId := if messageOwned then 1 else 0;
      policy, userOwned := 0, false;
      blocks, serials, policies := map[], map[], map[];
      freed, released, ran := [], 0, [];
      new;
      Init(id);
    }

    /** The deallocator. A null block is nothing to free. */
    method Deallocate(c: Chunk)
      modifies `blocks, `serials, `policies, `freed, `released
      ensures released == old(released) + c.size
      ensures c.base == 0 ==> unchanged(`blocks, `serials, `policies, `freed)
      ensures c.base != 0 ==>
        && blocks == BlocksWithout(old(blocks), c) && serials == SerialsWithout(old(serials), c)
        && policies == (map a | a in old(policies) && !Within(a, c) :: old(policies)[a])
        && freed == old(freed) + [c]
    {
      if c.base != 0 {
        blocks := BlocksWithout(blocks, c);
        serials := SerialsWithout(serials, c);
        policies := map a | a in policies && !Within(a, c) :: policies[a];
        freed := freed + [c];
      }
      released := released + c.size;
    }

    method SpaceAllocated() returns (r: nat)
      requires Valid()
      ensures r == TotalSize(Chunks())
    {
      r := 0;
      var serial := threads;
      ghost var rest := list;
      while serial != 0
        invariant ListAt(serial, rest, blocks, serials)
        invariant r + TotalSize(AllChunks(rest)) == TotalSize(Chunks())
        decreases |rest|
      {
        TotalSizeConcat(rest[0].chain, AllChunks(rest[1..]));
        r := r + serials[serial].spaceAllocated;
        serial := serials[serial].next;
        rest := rest[1..];
      }
    }

    /** Frees all blocks of the SerialArena but the oldest, which it returns. */
    method FreeSerial(a: Addr, ghost rest: seq<Serial>) returns (mem: Chunk)
      requires |rest| > 0 && ListAt(a, rest, blocks, serials) && AllApart(AllChunks(rest))
      modifies `blocks, `serials, `policies, `freed, `released
      ensures mem == rest[0].chain[|rest[0].chain| - 1] && mem.base > 0
      ensures freed == old(freed) + rest[0].chain[..|rest[0].chain| - 1]
      ensures released + mem.size == old(released) + TotalSize(rest[0].chain)
      ensures a in serials && serials[a] == old(serials)[a]
      ensures ListAt(serials[a].next, rest[1..], blocks, serials)
      ensures forall p ::
                p in old(policies) && (forall k :: 0 <= k < |rest[0].chain| - 1 ==> !Within(p, rest[0].chain[k])) ==>
                p in policies && policies[p] == old(policies)[p]
    {
      hide AllApart, AwayFromAll, AllChunks;
      ghost var chain := rest[0].chain;
      ghost var k := 0;
      ChunksOf(rest);
      ApartParts(chain, AllChunks(rest[1..]));
      var b := serials[a].head;
      mem := Chunk(b, blocks[b].size);
      assert chain[0..] == chain;
      while blocks[b].next != 0
        invariant 0 <= k < |chain|
        invariant ChainAt(b, chain[k..], blocks) && mem == chain[k] && b == mem.base
        invariant a in serials && serials[a] == old(serials)[a]
        invariant ListAt(serials[a].next, rest[1..], blocks, serials)
        invariant freed == old(freed) + chain[..k]
        invariant released + TotalSize(chain[k..]) == old(released) + TotalSize(chain)
        invariant forall p :: p in old(policies) && (forall i :: 0 <= i < k ==> !Within(p, chain[i])) ==>
                    p in policies && policies[p] == old(policies)[p]
        decreases |chain| - k
      {
        assert chain[k..][1..] == chain[k + 1..];
        b := blocks[b].next;
        assert k + 1 < |chain|;
        AwayFromLater(chain, k);
        ChainSurvives(b, chain[k + 1..], blocks, mem);
        ListSurvives(serials[a].next, rest[1..], blocks, serials, mem);
        assert Away(mem, chain[|chain| - 1]);
        Deallocate(mem);
        k := k + 1;
        mem := Chunk(b, blocks[b].size);
      }
      assert chain[k..][1..] == chain[k + 1..];
      assert k == |chain| - 1;
      assert TotalSize(chain[k + 1..]) == 0;
    }

    /** The blocks still to be freed while the list is walked: the one held back and the rest. */
    static ghost function Remaining(mem: Chunk, rest: seq<Serial>): seq<Chunk> {
      (if mem.base == 0 then [] else [mem]) + AllChunks(rest)
    }

    ghost predicate Freeing(mem: Chunk, serial: Addr, rest: seq<Serial>)
      reads this
    {
      && ListAt(serial, rest, blocks, serials)
      && AllApart(Remaining(mem, rest))
      && (policy != 0 ==> policy in policies && InLast(policy, Remaining(mem, rest)))
    }

    /** The block held back is freed, if there is one. */
    method FreeHeld(held: Chunk, serial: Addr, ghost rest: seq<Serial>)
      requires Freeing(held, serial, rest) && rest != []
      modifies `blocks, `serials, `policies, `freed, `released
      ensures Freeing(Chunk(0, 0), serial, rest)
      ensures freed + AllChunks(rest) == old(freed) + Remaining(held, rest) && |freed| >= |old(freed)|
      ensures released + TotalSize(AllChunks(rest)) == old(released) + TotalSize(Remaining(held, rest))
      ensures policy != 0 ==> policies[policy] == old(policies)[policy]
    {
      hide AllApart, AwayFromAll, TotalSize, ListAt, SerialAt, AllChunks, InLast;
      ListHead(serial, rest, blocks, serials);
      ghost var all, later := Remaining(held, rest), AllChunks(rest);
      assert Remaining(Chunk(0, 0), rest) == later;
      if held.base == 0 {
        assert all == later;
        return;
      }
      assert all == [held] + later;
      HeldFacts(held, later, policy);
      ListSurvives(serial, rest, blocks, serials, held);
      Deallocate(held);
    }

    /** One step of the walk: the block held back is freed, then those of this SerialArena. */
    method FreeNext(held: Chunk, serial: Addr, ghost rest: seq<Serial>) returns (mem: Chunk, next: Addr)
      requires Freeing(held, serial, rest) && serial != 0
      modifies `blocks, `serials, `policies, `freed, `released
      ensures rest != [] && Freeing(mem, next, rest[1..]) && mem.base != 0
      ensures freed + Remaining(mem, rest[1..]) == old(freed) + Remaining(held, rest) && |freed| >= |old(freed)|
      ensures released + TotalSize(Remaining(mem, rest[1..])) == old(released) + TotalSize(Remaining(held, rest))
      ensures policy != 0 ==> policies[policy] == old(policies)[policy]
    {
      hide AllApart, AwayFromAll, TotalSize, ListAt, SerialAt, AllChunks, InLast, Within;
      ListHead(serial, rest, blocks, serials);
      ghost var chain, later := rest[0].chain, AllChunks(rest[1..]);
      FreeHeld(held, serial, rest);
      assert Remaining(Chunk(0, 0), rest) == chain + later;
      Regroup(chain, later, policy);
      EarlierWithoutPolicy(chain, later, policy);
      assert Remaining(Chunk(0, 0), rest) == chain + later;
      mem := FreeSerial(serial, rest);
      next := serials[serial].next;
      assert Remaining(mem, rest[1..]) == [chain[|chain| - 1]] + later;
    }

    /** Frees every block but the oldest of the last SerialArena, which it returns. */
    method Free() returns (mem: Chunk)
      requires Valid()
      modifies `blocks, `serials, `policies, `freed, `released
      ensures Chunks() == [] ==> mem == Chunk(0, 0) && freed == old(freed)
      ensures Chunks() != [] ==> mem == Chunks()[|Chunks()| - 1] && mem.base > 0
                                 && freed == old(freed) + Chunks()[..|Chunks()| - 1]
      ensures released + mem.size == old(released) + TotalSize(Chunks())
      ensures policy != 0 ==> policy in policies && policies[policy] == old(policies)[policy]
    {
      hide AllApart, SerialAt, ListAt, TotalSize, AllChunks, InLast, Valid;
      FreeingStarts();
      mem := Chunk(0, 0);
      var serial := threads;
      ghost var rest := list;
      while serial != 0
        invariant Freeing(mem, serial, rest)
        invariant mem.base == 0 ==> mem == Chunk(0, 0) && freed == old(freed) && rest == list
        invariant freed + Remaining(mem, rest) == old(freed) + Chunks() && |freed| >= |old(freed)|
        invariant released + TotalSize(Remaining(mem, rest)) == old(released) + TotalSize(Chunks())
        invariant policy != 0 ==> policies[policy] == old(policies)[policy]
        decreases |rest|
      {
        mem, serial := FreeNext(mem, serial, rest);
        rest := rest[1..];
      }
      NoneLeft(rest, blocks, serials);
      if mem.base != 0 {
        assert Remaining(mem, rest) == [mem] + [];
        TotalSizeOne(mem, []);
        SplitLast(freed, mem, old(freed), Chunks());
      } else {
        assert Remaining(mem, rest) == [];
      }
    }

    lemma FreeingStarts()
      requires Valid()
      ensures Freeing(Chunk(0, 0), threads, list) && Remaining(Chunk(0, 0), list) == Chunks()
      ensures policy != 0 ==> policy in policies
    {
    }

    // ----- growing -----

    /** The thread's SerialArena, found in the list or pushed in front of it with a block of
        its own at `mem`. The walk and the push as one thread alone performs them. */
    method GetSerialArenaFallback(me: int, p: AllocationPolicy, mem: Addr) returns (serial: Addr)
      requires Valid() && mem > 0
      requires AwayFromAll(Chunk(mem, NextBlockSize(p, 0, SERIAL_ARENA_SIZE)), Chunks())
      modifies `blocks, `serials, `threads, `hint, `list
      ensures Valid() && hint == serial && serial in serials && serials[serial].owner == me
      ensures list == old(list) <==> exists s :: s in old(list) && s.owner == me
      ensures OwnedBy(old(list), me) != [] ==> list == old(list) && serial == OwnedBy(old(list), me)[0].addr
      ensures OwnedBy(old(list), me) == [] ==>
        var c := Chunk(mem, NextBlockSize(p, 0, SERIAL_ARENA_SIZE));
        && serial == mem + BLOCK_HEADER_SIZE && list == [Serial(serial, me, [c], [])] + old(list)
        && Chunks() == [c] + old(Chunks())
      ensures old(list) == [] ==> TotalSize(Chunks()) == if p.startBlockSize < 104 then 104 else p.startBlockSize
      ensures old(list) == [] && p == DEFAULT_POLICY ==> TotalSize(Chunks()) == 256
      ensures old(Chunks()) != [] ==> Chunks()[|Chunks()| - 1] == old(Chunks())[|old(Chunks())| - 1]
    {
      serial := threads;
      ghost var rest := list;
      while serial != 0 && serials[serial].owner != me
        invariant ListAt(serial, rest, blocks, serials)
        invariant OwnedBy(rest, me) == OwnedBy(list, me)
        decreases |rest|
      {
        serial := serials[serial].next;
        rest := rest[1..];
      }
      OwnedByHas(list, me);
      if serial == 0 {
        TotalSizeOne(Chunk(mem, NextBlockSize(p, 0, SERIAL_ARENA_SIZE)), Chunks());
        serial := Push(me, Chunk(mem, NextBlockSize(p, 0, SERIAL_ARENA_SIZE)));
      }
      hint := serial;
    }

    /** A new SerialArena in a new block, at the head of the list. */
    method Push(me: int, c: Chunk) returns (serial: Addr)
      requires Valid() && c.base > 0 && c.size >= BLOCK_HEADER_SIZE + SERIAL_ARENA_SIZE
      requires AwayFromAll(c, Chunks())
      modifies `blocks, `serials, `threads, `list
      ensures Valid() && serial == c.base + BLOCK_HEADER_SIZE
      ensures list == [Serial(serial, me, [c], [])] + old(list) && Chunks() == [c] + old(Chunks())
    {
      hide ListAt, AllApart, AwayFromAll, AllChunks, Within;
      PushKeeps(threads, list, blocks, serials, c, me);
      serial := c.base + BLOCK_HEADER_SIZE;
      blocks := blocks[c.base := BlockHeader(0, c.size)];
      serials := serials[serial := SerialRecord(me, c.base, threads, c.size, [])];
      threads := serial;
      list := [Serial(serial, me, [c], [])] + list;
    }

    /** SerialArena a starts a new block at `mem`. Its place in the list is `before`. */
    method AllocateNewBlock(a: Addr, n: nat, p: AllocationPolicy, mem: Addr, ghost before: nat)
      requires Valid() && before < |list| && a == list[before].addr && mem > 0
      requires a in serials && serials[a].head in blocks
      requires AwayFromAll(Chunk(mem, NextBlockSize(p, blocks[serials[a].head].size, n)), Chunks())
      modifies `blocks, `serials, `list
      ensures Valid() && threads == old(threads)
      ensures var c := Chunk(mem, NextBlockSize(p, old(blocks)[old(serials)[a].head].size, n));
              list == WithBlock(old(list), before, c)
      ensures Chunks()[|Chunks()| - 1] == old(Chunks())[|old(Chunks())| - 1]
    {
      hide ListAt, AllApart, AwayFromAll, AllChunks, NextBlockSize, WithBlock, Within;
      var c := Chunk(mem, NextBlockSize(p, blocks[serials[a].head].size, n));
      ListWithBlock(threads, list, before, blocks, serials, c);
      ChunksWithBlock(threads, list, before, blocks, serials, c);
      blocks := blocks[mem := BlockHeader(serials[a].head, c.size)];
      serials := serials[a := serials[a].(head := mem, spaceAllocated := serials[a].spaceAllocated + c.size)];
      list := WithBlock(list, before, c);
    }

    /** SerialArena a is given a cleanup; those registered last run first. */
    method AddCleanup(a: Addr, node: Node, ghost before: nat)
      requires Valid() && before < |list| && a == list[before].addr && a in serials
      modifies `serials, `list
      ensures Valid() && Chunks() == old(Chunks())
      ensures list == WithCleanup(old(list), before, node)
      ensures list[before].cleanups == [node] + old(list)[before].cleanups
      ensures forall k :: 0 <= k < |list| && k != before ==> list[k] == old(list)[k]
    {
      hide ListAt, AllApart, AllChunks;
      ListWithCleanup(threads, list, before, blocks, serials, node);
      serials := serials[a := serials[a].(cleanups := [node] + serials[a].cleanups)];
      list := WithCleanup(list, before, node);
    }

    /** Runs the cleanups of every SerialArena. */
    method CleanupList()
      requires Valid()
      modifies `ran
      ensures ran == old(ran) + AllCleanups(list)
    {
      var serial := threads;
      ghost var rest := list;
      while serial != 0
        invariant ListAt(serial, rest, blocks, serials)
        invariant ran + AllCleanups(rest) == old(ran) + AllCleanups(list)
        modifies `ran
        decreases |rest|
      {
        assert ran + (rest[0].cleanups + AllCleanups(rest[1..])) == ran + rest[0].cleanups + AllCleanups(rest[1..]);
        ran := ran + serials[serial].cleanups;
        serial := serials[serial].next;
        rest := rest[1..];
      }
    }

    // ----- (re)initialisation -----

    /** Gives the arena a new lifecycle id and an empty list. The message-owned bit stays. */
    method Init(id: nat)
      requires id % 2 == 0
      modifies this
      ensures tagAndId == id + old(tagAndId) % 2
      ensures hint == 0 && threads == 0 && list == []
      ensures ListAt(threads, list, blocks, serials) && Chunks() == [] && AllApart(Chunks())
      ensures unchanged(`policy, `userOwned, `blocks, `serials, `policies, `freed, `released, `ran, `initial)
    {
      tagAndId := id + tagAndId % 2;
      hint := 0;
      threads := 0;
      list := [];
    }

    method SetInitialBlock(mem: Chunk, thread: int)
      requires list == [] && threads == 0
      requires mem.base > 0 && mem.size >= BLOCK_HEADER_SIZE + SERIAL_ARENA_SIZE
      modifies this
      ensures list == [Serial(mem.base + BLOCK_HEADER_SIZE, thread, [mem], [])]
      ensures ListAt(threads, list, blocks, serials) && Chunks() == [mem]
      ensures hint == threads == mem.base + BLOCK_HEADER_SIZE
      ensures initial == mem && unchanged(`tagAndId, `policy, `userOwned, `policies, `freed, `ran)
    {
      var serial := mem.base + BLOCK_HEADER_SIZE;
      blocks := blocks[mem.base := BlockHeader(0, mem.size)];
      serials := serials[serial := SerialRecord(thread, mem.base, 0, mem.size, [])];
      threads := serial;
      hint := serial;
      list := [Serial(serial, thread, [mem], [])];
      initial := mem;
      assert [mem][1..] == [] && list[1..] == [];
      assert AllChunks(list) == [mem] + [];
      assert TotalSize([mem]) == mem.size + TotalSize([]);
    }

    /** `mem` is the user's block, or null. A block too small to hold a SerialArena is ignored. */
    method InitializeFrom(mem: Chunk, thread: int, id: nat)
      requires id % 2 == 0 && policy == 0
      requires userOwned ==> mem.base != 0 && mem.size >= BLOCK_HEADER_SIZE + SERIAL_ARENA_SIZE
      modifies this
      ensures Valid() && policy == 0 && freed == old(freed) && ran == old(ran) && AllCleanups(list) == []
      ensures tagAndId == id + old(tagAndId) % 2
      ensures var usable := mem.base != 0 && mem.size >= BLOCK_HEADER_SIZE + SERIAL_ARENA_SIZE;
              && Chunks() == (if usable then [mem] else [])
              && list == (if usable then [Serial(mem.base + BLOCK_HEADER_SIZE, thread, [mem], [])] else [])
              && userOwned == usable && (usable ==> initial == mem)
    {
      Init(id);
      if mem.base != 0 && mem.size >= BLOCK_HEADER_SIZE + SERIAL_ARENA_SIZE {
        userOwned := true;
        SetInitialBlock(mem, thread);
      }
    }

    /** A policy other than the one IsDefault recognises is stored in the first block; if the
        user's block cannot hold it, `fallback` is what the backing allocator hands out. */
    method InitializeWithPolicy(mem: Chunk, p: AllocationPolicy, thread: int, id: nat, fallback: Addr)
      requires id % 2 == 0 && fallback > 0
      requires p.IsDefault() ==> policy == 0
      requires userOwned ==> mem.base != 0 && mem.size >= BLOCK_HEADER_SIZE + SERIAL_ARENA_SIZE + POLICY_SIZE
      modifies this
      ensures Valid() && freed == old(freed) && ran == old(ran) && AllCleanups(list) == []
      ensures tagAndId == id + old(tagAndId) % 2
      ensures userOwned ==> initial == mem
      ensures policy == 0 <==> p.IsDefault()
      ensures p.IsDefault() ==> userOwned == (mem.base != 0 && mem.size >= BLOCK_HEADER_SIZE + SERIAL_ARENA_SIZE)
      ensures p.IsDefault() ==> Chunks() == (if userOwned then [mem] else [])
      ensures !p.IsDefault() ==> policies[policy] == p
      ensures !p.IsDefault() ==>
        userOwned == (mem.base != 0 && mem.size >= BLOCK_HEADER_SIZE + SERIAL_ARENA_SIZE + POLICY_SIZE)
      ensures !p.IsDefault() ==> Chunks() == (if userOwned then [mem] else [Chunk(fallback, FirstBlockSize(p))])
      ensures |list| <= 1 && (list != [] ==> list[0].owner == thread)
    {
      if p.IsDefault() {
        InitializeFrom(mem, thread, id);
        return;
      }
      Init(id);
      var first := mem;
      if mem.base != 0 && mem.size >= BLOCK_HEADER_SIZE + SERIAL_ARENA_SIZE + POLICY_SIZE {
        userOwned := true;
      } else {
        first := Chunk(fallback, FirstBlockSize(p));
      }
      SetInitialBlock(first, thread);
      var stored := first.base + BLOCK_HEADER_SIZE + SERIAL_ARENA_SIZE;
      policies := policies[stored := p];
      policy := stored;
    }

    static function FirstBlockSize(p: AllocationPolicy): (size: nat)
      ensures size == if p.startBlockSize < 168 then 168 else p.startBlockSize
    {
      NextBlockSize(p, 0, BLOCK_HEADER_SIZE + SERIAL_ARENA_SIZE + POLICY_SIZE)
    }

    // ----- Reset and destruction -----

    /** Frees all blocks but the user's, and starts over with a new lifecycle id. Returns what
        was allocated before. First, while every block is still there, all cleanups are run. */
    method Reset(thread: int, id: nat, fallback: Addr) returns (spaceAllocated: nat)
      requires Valid() && id % 2 == 0 && fallback > 0
      modifies this
      ensures Valid()
      ensures spaceAllocated == TotalSize(old(Chunks()))
      ensures ran == old(ran) + AllCleanups(old(list)) && AllCleanups(list) == []
      ensures freed == old(freed) + old(ToFree())
      ensures userOwned == old(userOwned)
      ensures userOwned ==> initial == old(initial) && Chunks() == [initial] && AwayFromAll(initial, old(ToFree()))
      ensures !userOwned && old(policy) == 0 ==> Chunks() == []
      ensures !userOwned && old(policy) != 0 ==> Chunks() == [Chunk(fallback,
                FirstBlockSize(old(policies)[old(policy)]))]
      ensures (policy == 0 <==> old(policy) == 0) && (policy != 0 ==> policies[policy] == old(policies)[old(policy)])
      ensures tagAndId == id + old(tagAndId) % 2
      ensures |list| <= 1 && (list != [] ==> list[0].owner == thread)
    {
      hide ListAt, AllApart, TotalSize, AllCleanups, AllChunks, AwayFromAll, BlocksWithout, SerialsWithout,
           NextBlockSize;
      CleanupList();
      LastAway(Chunks());
      NoChunks();
      released := 0;
      var mem := Free();
      if policy != 0 {
        var saved := policies[policy];
        if userOwned {
          spaceAllocated := released + mem.size;
        } else {
          Deallocate(mem);
          mem := Chunk(0, 0);
          spaceAllocated := released;
        }
        InitializeWithPolicy(mem, saved, thread, id, fallback);
      } else if userOwned {
        spaceAllocated := released + mem.size;
        InitializeFrom(mem, thread, id);
      } else {
        Deallocate(mem);
        spaceAllocated := released;
        Init(id);
      }
    }

    /** The destructor: all cleanups are run, then every block but the user's is freed. */
    method Destroy() returns (spaceAllocated: nat)
      requires Valid()
      modifies this
      ensures spaceAllocated == TotalSize(old(Chunks()))
      ensures ran == old(ran) + AllCleanups(old(list))
      ensures freed == old(freed) + old(ToFree())
      ensures userOwned ==> initial == old(initial) && AwayFromAll(initial, old(ToFree()))
    {
      hide ListAt, AllApart, TotalSize, AllCleanups, AllChunks, AwayFromAll, BlocksWithout, SerialsWithout;
      CleanupList();
      LastAway(Chunks());
      released := 0;
      var mem := Free();
      if userOwned {
        spaceAllocated := released + mem.size;
      } else {
        Deallocate(mem);
        spaceAllocated := released;
      }
    }
  }

  lemma NoneLeft(rest: seq<Serial>, blocks: Blocks, serials: Serials)
    requires ListAt(0, rest, blocks, serials)
    ensures rest == [] && AllChunks(rest) == [] && TotalSize([]) == 0
  {
  }

  /** The list from the first SerialArena of this owner on. */
  ghost function OwnedBy(list: seq<Serial>, me: int): seq<Serial> {
    if list == [] then [] else if list[0].owner == me then list else OwnedBy(list[1..], me)
  }

  lemma {:induction false} OwnedByHas(list: seq<Serial>, me: int)
    ensures OwnedBy(list, me) != [] <==> exists s :: s in list && s.owner == me
    ensures OwnedBy(list, me) != [] ==> OwnedBy(list, me)[0].owner == me
  {
    if list != [] {
      OwnedByHas(list[1..], me);
      assert forall s :: s in list <==> s == list[0] || s in list[1..];
    }
  }

  ghost function WithBlock(list: seq<Serial>, i: nat, c: Chunk): seq<Serial>
    requires i < |list|
  {
    list[i := list[i].(chain := [c] + list[i].chain)]
  }

  ghost function WithCleanup(list: seq<Serial>, i: nat, node: Node): seq<Serial>
    requires i < |list|
  {
    list[i := list[i].(cleanups := [node] + list[i].cleanups)]
  }

  lemma {:induction false} ListElsewhere(p: Addr, list: seq<Serial>, blocks: Blocks, serials: Serials, a: Addr,
                                         r: SerialRecord)
    requires ListAt(p, list, blocks, serials) && forall k :: 0 <= k < |list| ==> list[k].addr != a
    ensures ListAt(p, list, blocks, serials[a := r])
    decreases list
  {
    if list != [] {
      assert forall k :: 0 <= k < |list[1..]| ==> list[1..][k] == list[k + 1];
      ListElsewhere(serials[p].next, list[1..], blocks, serials, a, r);
    }
  }

  /** A SerialArena anywhere in the list is given a cleanup. */
  lemma {:induction false} ListWithCleanup(p: Addr, list: seq<Serial>, i: nat, blocks: Blocks, serials: Serials,
                                           node: Node)
    requires ListAt(p, list, blocks, serials) && AllApart(AllChunks(list)) && i < |list|
    ensures list[i].addr in serials && AllChunks(WithCleanup(list, i, node)) == AllChunks(list)
    ensures var a := list[i].addr;
            ListAt(p, WithCleanup(list, i, node), blocks,
                   serials[a := serials[a].(cleanups := [node] + serials[a].cleanups)])
    decreases list
  {
    hide AllApart;
    ListHead(p, list, blocks, serials);
    var s, tail, list' := list[0], list[1..], WithCleanup(list, i, node);
    ApartParts(s.chain, AllChunks(tail));
    OthersElsewhere(list, blocks, serials, p);
    if i == 0 {
      var r := serials[s.addr];
      ListElsewhere(r.next, tail, blocks, serials, s.addr, r.(cleanups := [node] + r.cleanups));
      assert list'[1..] == tail;
    } else {
      ListWithCleanup(serials[p].next, tail, i - 1, blocks, serials, node);
      assert tail[i - 1] == list[i];
      assert list'[1..] == WithCleanup(tail, i - 1, node);
    }
  }

  /** The last block is none of those before it. */
  lemma LastAway(chunks: seq<Chunk>)
    requires AllApart(chunks)
    ensures chunks != [] ==> AwayFromAll(chunks[|chunks| - 1], chunks[..|chunks| - 1])
  {
  }

  /** New records in memory away from a chain leave it as it is. */
  lemma {:induction false} ChainStays(p: Addr, chain: seq<Chunk>, blocks: Blocks, c: Chunk, h: BlockHeader)
    requires ChainAt(p, chain, blocks) && AwayFromAll(c, chain) && c.size > 0
    ensures ChainAt(p, chain, blocks[c.base := h])
    decreases chain
  {
    if chain != [] {
      assert Away(c, chain[0]);
      assert AwayFromAll(c, chain[1..]) by {
        forall j | 0 <= j < |chain[1..]| ensures Away(c, chain[1..][j]) {
          assert Away(c, chain[j + 1]);
        }
      }
      ChainStays(blocks[p].next, chain[1..], blocks, c, h);
    }
  }

  /** So does a change to a SerialArena that is not in the list. */
  lemma {:induction false} ListStays(p: Addr, list: seq<Serial>, blocks: Blocks, serials: Serials,
                                     c: Chunk, h: BlockHeader, a: Addr, r: SerialRecord)
    requires ListAt(p, list, blocks, serials) && AwayFromAll(c, AllChunks(list)) && c.size > 0
    requires forall k :: 0 <= k < |list| ==> list[k].addr != a
    ensures ListAt(p, list, blocks[c.base := h], serials[a := r])
    decreases list
  {
    if list != [] {
      var s := list[0];
      AwayParts(c, s.chain, AllChunks(list[1..]));
      ChainStays(serials[p].head, s.chain, blocks, c, h);
      assert forall k :: 0 <= k < |list[1..]| ==> list[1..][k] == list[k + 1];
      ListStays(serials[p].next, list[1..], blocks, serials, c, h, a, r);
    }
  }

  /** A SerialArena lies in its oldest block, so in none of the blocks away from the list. */
  lemma {:induction false} AddrInside(p: Addr, list: seq<Serial>, blocks: Blocks, serials: Serials, k: nat)
    requires ListAt(p, list, blocks, serials) && k < |list|
    ensures list[k].chain != []
    ensures var c := list[k].chain[|list[k].chain| - 1]; c in AllChunks(list) && Within(list[k].addr, c)
    decreases list
  {
    if k > 0 {
      AddrInside(serials[p].next, list[1..], blocks, serials, k - 1);
    }
  }

  lemma AddrAway(p: Addr, list: seq<Serial>, blocks: Blocks, serials: Serials, c: Chunk, a: Addr)
    requires ListAt(p, list, blocks, serials) && AwayFromAll(c, AllChunks(list)) && Within(a, c)
    ensures forall k :: 0 <= k < |list| ==> list[k].addr != a
  {
    forall k | 0 <= k < |list| ensures list[k].addr != a {
      AddrInside(p, list, blocks, serials, k);
      var d := list[k].chain[|list[k].chain| - 1];
      var i :| 0 <= i < |AllChunks(list)| && AllChunks(list)[i] == d;
      assert Away(c, AllChunks(list)[i]);
    }
  }

  lemma PushKeeps(p: Addr, list: seq<Serial>, blocks: Blocks, serials: Serials, c: Chunk, me: int)
    requires ListAt(p, list, blocks, serials) && AllApart(AllChunks(list)) && AwayFromAll(c, AllChunks(list))
    requires c.base > 0 && c.size >= BLOCK_HEADER_SIZE + SERIAL_ARENA_SIZE
    ensures var serial := c.base + BLOCK_HEADER_SIZE; var list' := [Serial(serial, me, [c], [])] + list;
            && ListAt(serial, list', blocks[c.base := BlockHeader(0, c.size)],
                      serials[serial := SerialRecord(me, c.base, p, c.size, [])])
            && AllChunks(list') == [c] + AllChunks(list) && AllApart(AllChunks(list'))
  {
    var serial := c.base + BLOCK_HEADER_SIZE;
    var r := SerialRecord(me, c.base, p, c.size, []);
    var list' := [Serial(serial, me, [c], [])] + list;
    AddrAway(p, list, blocks, serials, c, serial);
    ListStays(p, list, blocks, serials, c, BlockHeader(0, c.size), serial, r);
    assert list'[1..] == list && [c][1..] == [];
    assert TotalSize([c]) == c.size + TotalSize([]);
    PushApart(c, AllChunks(list));
  }

  lemma PushApart(c: Chunk, chunks: seq<Chunk>)
    requires AllApart(chunks) && AwayFromAll(c, chunks)
    ensures AllApart([c] + chunks)
  {
    var all := [c] + chunks;
    forall i, j | 0 <= i < j < |all| ensures Away(all[i], all[j]) {
      if i == 0 {
        assert Away(c, chunks[j - 1]);
      } else {
        assert Away(chunks[i - 1], chunks[j - 1]);
      }
    }
  }

  /** A SerialArena anywhere in the list starts a new block. */
  lemma {:induction false} ListWithBlock(p: Addr, list: seq<Serial>, i: nat, blocks: Blocks, serials: Serials, c: Chunk)
    requires ListAt(p, list, blocks, serials) && AllApart(AllChunks(list)) && AwayFromAll(c, AllChunks(list))
    requires i < |list| && c.base > 0 && c.size >= BLOCK_HEADER_SIZE
    ensures list[i].addr in serials
    ensures var a := list[i].addr; var r := serials[a];
            ListAt(p, WithBlock(list, i, c), blocks[c.base := BlockHeader(r.head, c.size)],
                   serials[a := r.(head := c.base, spaceAllocated := r.spaceAllocated + c.size)])
    decreases list
  {
    hide AllApart, AwayFromAll, AllChunks, Away;
    ListHead(p, list, blocks, serials);
    var s, tail := list[0], list[1..];
    var list' := WithBlock(list, i, c);
    AwayParts(c, s.chain, AllChunks(tail));
    ApartParts(s.chain, AllChunks(tail));
    OthersElsewhere(list, blocks, serials, p);
    if i == 0 {
      var r := serials[s.addr];
      ListStays(r.next, tail, blocks, serials, c, BlockHeader(r.head, c.size), s.addr,
                r.(head := c.base, spaceAllocated := r.spaceAllocated + c.size));
      ChainStays(r.head, s.chain, blocks, c, BlockHeader(r.head, c.size));
      assert list'[1..] == tail;
      assert list'[0].chain[1..] == s.chain;
    } else {
      ListWithBlock(serials[p].next, tail, i - 1, blocks, serials, c);
      assert tail[i - 1] == list[i];
      assert list'[1..] == WithBlock(tail, i - 1, c);
      ChainStays(serials[p].head, s.chain, blocks, c, BlockHeader(serials[list[i].addr].head, c.size));
    }
  }

  /** The SerialArenas behind the first one have other addresses. */
  lemma OthersElsewhere(list: seq<Serial>, blocks: Blocks, serials: Serials, p: Addr)
    requires ListAt(p, list, blocks, serials) && list != [] && AllApart(AllChunks(list))
    ensures forall k :: 0 <= k < |list[1..]| ==> list[1..][k].addr != list[0].addr
  {
    var s, tail := list[0], list[1..];
    ApartParts(s.chain, AllChunks(tail));
    var d := s.chain[|s.chain| - 1];
    assert AwayFromAll(d, AllChunks(tail));
    AddrAway(serials[p].next, tail, blocks, serials, d, s.addr);
  }

  /** The new block comes right before the blocks of SerialArena i. */
  lemma {:induction false} ChunksSplit(list: seq<Serial>, i: nat, c: Chunk)
    requires i < |list|
    ensures AllChunks(list) == AllChunks(list[..i]) + AllChunks(list[i..])
    ensures AllChunks(WithBlock(list, i, c)) == AllChunks(list[..i]) + ([c] + AllChunks(list[i..]))
  {
    hide AllChunks;
    var list' := WithBlock(list, i, c);
    ChunksOf(list);
    ChunksOf(list');
    if i == 0 {
      NoChunks();
      assert list'[1..] == list[1..] && list[0..] == list && list[..0] == [];
      assert [c] + list[0].chain + AllChunks(list[1..]) == [c] + (list[0].chain + AllChunks(list[1..]));
    } else {
      ChunksSplit(list[1..], i - 1, c);
      assert list'[1..] == WithBlock(list[1..], i - 1, c);
      assert list[..i][1..] == list[1..][..i - 1] && list[i..] == list[1..][i - 1..];
      ChunksOf(list[..i]);
      var front, back := AllChunks(list[..i][1..]), [c] + AllChunks(list[i..]);
      assert list[0].chain + (front + back) == (list[0].chain + front) + back;
    }
  }

  lemma ChunksOf(list: seq<Serial>)
    requires list != []
    ensures AllChunks(list) == list[0].chain + AllChunks(list[1..])
  {
  }

  lemma NoChunks()
    ensures AllChunks([]) == [] && AllCleanups([]) == []
  {
  }

  lemma InsertApart(front: seq<Chunk>, back: seq<Chunk>, c: Chunk)
    requires AllApart(front + back) && AwayFromAll(c, front + back)
    ensures AllApart(front + ([c] + back))
  {
    var all := front + ([c] + back);
    var n := |front|;
    forall x, y | 0 <= x < y < |all| ensures Away(all[x], all[y]) {
      var x', y' := if x > n then x - 1 else x, if y > n then y - 1 else y;
      if x == n {
        assert Away(c, (front + back)[y']);
      } else if y == n {
        assert Away(c, (front + back)[x']);
      } else {
        assert Away((front + back)[x'], (front + back)[y']);
      }
    }
  }

  lemma ChunksWithBlock(p: Addr, list: seq<Serial>, i: nat, blocks: Blocks, serials: Serials, c: Chunk)
    requires ListAt(p, list, blocks, serials) && AllApart(AllChunks(list)) && AwayFromAll(c, AllChunks(list))
    requires i < |list|
    ensures AllApart(AllChunks(WithBlock(list, i, c)))
    ensures AllChunks(list) != [] && AllChunks(WithBlock(list, i, c)) != []
    ensures AllChunks(WithBlock(list, i, c))[|AllChunks(WithBlock(list, i,
              c))| - 1] == AllChunks(list)[|AllChunks(list)| - 1]
  {
    hide ListAt, AllApart, AwayFromAll, WithBlock, Away;
    ChunksSplit(list, i, c);
    AddrInside(p, list, blocks, serials, i);
    HasChunks(list[i..]);
    InsertApart(AllChunks(list[..i]), AllChunks(list[i..]), c);
  }

  lemma HasChunks(list: seq<Serial>)
    requires list != [] && list[0].chain != []
    ensures AllChunks(list) != []
  {
  }

  /** A policy in the last block is in none of the earlier ones. */
  lemma PolicyOutside(chunks: seq<Chunk>, n: nat, policy: Addr)
    requires AllApart(chunks) && n < |chunks|
    ensures Within(policy, chunks[|chunks| - 1]) ==> forall k :: 0 <= k < n ==> !Within(policy, chunks[k])
  {
    if Within(policy, chunks[|chunks| - 1]) {
      forall k | 0 <= k < n ensures !Within(policy, chunks[k]) {
        assert Away(chunks[k], chunks[|chunks| - 1]);
      }
    }
  }
}
