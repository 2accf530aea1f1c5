# Verified model of the game server's allocator, packets and logging patterns

Four parts of the server and of the libraries it is built with are modelled in Dafny, and the
promises that span their functions are proved for all inputs, all runs and all interleavings.

**The arena.** `serial_arena.dfy` is `SerialArena` as a class whose methods overwrite `ptr`,
`limit`, `head`, the free-list registers and the words of the memory it manages (`cells`). A ghost
description of that memory (`arena_memory.dfy`, `arena_effects.dfy`) says which region of which
block holds what; every method keeps all live objects, cleanup nodes, cached blocks, the free-list
table, block headers and the embedded SerialArena pairwise disjoint and inside one block each.
`arena_accounting.dfy` has the sizes and totals, `arena_caching.dfy` what is on the free lists,
`arena_cleanup.dfy` the order of cleanups, `arena_growth.dfy` how large blocks become and which
policies and first blocks make every cleanup run, `arena_api.dfy` alignments above 8.
`thread_safe_arena.dfy` is `ThreadSafeArena` for one thread: the list of SerialArenas, `Reset` and
destruction, over memory records that disappear when their block is freed, so that every read is
checked to be of memory that is still there.

**Threads sharing arenas.** `arena_protocol.dfy` is a state machine whose steps are single accesses
to shared memory: drawing lifecycle ids, searching the list, the compare-exchange push, the three
stores of `CacheSerialArena`, the two fast paths, reset and destruction. Any number of threads and
arenas interleave freely. `arena_ids.dfy`, `arena_lists.dfy` and `arena_lists_kept.dfy` prove the
inductive invariant; `arena_protocol_safety.dfy` states what follows for every run, and
`arena_lookup.dfy` what a lookup comes to when nobody interferes.

**Packets.** The code generated for every message in `Struct.pb.cc` and `Protocol.pb.cc` is one
template filled in with the message's fields, so the model is that template over a schema;
`packets.dfy` lists the schemas. `wire.dfy` has the varints and words (with the library's
wrapping byte loops refined to them), `messages.dfy` and `parsing.dfy` say what bytes a message
stands for and what bytes build on top of a message, `parser.dfy` and `serializer.dfy` are the parse
loops, the two serialization passes and merging as methods with loops, proved against those
functions; `codec_laws.dfy`, `nesting.dfy` and `reencoding.dfy` prove the laws between them;
`packet_bytes.dfy` writes out the bytes of every packet. `framing.dfy` and
`receiving.dfy` carry packets over a connection: `MakeSendBuffer`, the dispatch table, the receive
buffer and the cutting of a byte stream into frames. The bodies behind `receiving.dfy` are
`RecvBuffer` (ServerLibrary/RecvBuffer.cpp, lines 8-54), `Session::ProcessRecv` and
`PacketSession::OnRecv` (ServerLibrary/Session.cpp, lines 241-270 and 295-318); those two files are
not UTF-8 text, so the table cites the headers that declare what they implement and override.

**Log patterns.** `patterns.dfy` reads a pattern directly; `pattern_formatter.dfy` compiles it with
an iterator advanced across functions and formats with everything that is cached between messages:
the broken-down time, the text of date and time, the zone offset and the time of the last message.

Where the code and its own documentation disagree, the code is followed:

- `AllocationPolicy::IsDefault` compares the start size with the default *maximum* size, so a
  default-constructed policy is not recognised as default.
- A cleanup node that is alone in a block whose size is no multiple of 8 is never run; the reverse
  order of registration holds if and only if there is no such block besides the first. Such blocks
  come about even with the default policy, behind a user's block below 4096 bytes whose size is no
  multiple of 4. The pointer difference that decides it (arena.cc:197) is then no whole number of
  nodes, which C++ leaves undefined; that it is truncated is the model's assumption.
- The writer accepts lengths up to `INT_MAX`, the reader only up to `INT_MAX - 16`.
- `MakeSendBuffer` sizes wrap at 16 bits; its result is the packet's frame if and only if message
  and header together fit in 65535 bytes.
- A message stamped in second 0 of the epoch, before any other, is formatted with an all-zero time.
- The zone offset is remembered for ten seconds and starts as +00:00: a message within ten seconds
  after a change of offset shows the old one.

## Model

| member | source | states |
|---|---|---|
| Bits.Log2FloorExact | Libraries/Include/google/protobuf/stubs/port.h:302-318 | the result is the only k with 2^k <= n < 2^(k+1) |
| Bits.AlignUpTo8Exact | Libraries/Include/google/protobuf/arena_impl.h:65-68 | the mask gives the least multiple of 8 not below n, exactly when n + 7 does not wrap |
| Bits.RoundDownTo8Exact | Libraries/Include/google/protobuf/arena.cc:191-206 | the mask used for the end of a block's cleanup list rounds a size down to a multiple of 8 |
| Bits.AlignToExact | Libraries/Include/google/protobuf/arena.h:94-97 | for a power of two the mask gives the least aligned address not below p |
| ArenaAccounting.NextBlockSize | Libraries/Include/google/protobuf/arena.cc:56-80 | whatever the policy and the doubling that wraps, the block has room for its header and the request; its exact size is that of BlockSizes and, for a first block, GetSerialArenaFallback |
| ArenaAccounting.IndexBounds | Libraries/Include/google/protobuf/arena_impl.h:229-323 | a request is at most, and a returned block at least, the power of two of its list |
| ArenaAccounting.CachedIsLargeEnough | Libraries/Include/google/protobuf/arena_impl.h:229-323 | the two roundings compose: what is found on a request's list is large enough for it |
| ArenaAccounting.TableFits | Libraries/Include/google/protobuf/arena_impl.h:282-323 | the grown table fits in the array being returned and has a list for that array's own size |
| ArenaAccounting.TableAges | Libraries/Include/google/protobuf/arena_impl.h:282-323 | each growth brings the table to a new age, of which there are three |
| ArenaAccounting.AmortisedNewBlock | Libraries/Include/google/protobuf/arena.cc:56-80 | starting a block keeps the capacity behind the newest block below twice the bytes consumed |
| ArenaAccounting.DefaultIsNotRecognised | Libraries/Include/google/protobuf/arena_impl.h:105-120 | only a policy that starts with 8192 bytes counts as default; the default-constructed one starts with 256 and does not |
| ArenaMemory.BumpKeeps | Libraries/Include/google/protobuf/arena_impl.h:272-279 | bumping keeps the block layout and the partition into disjoint regions |
| ArenaMemory.NoteKeeps | Libraries/Include/google/protobuf/arena_impl.h:335-355 | a cleanup node cut from the other end keeps them too |
| ArenaMemory.NewBlockKeeps | Libraries/Include/google/protobuf/arena.cc:152-181 | so does a block the backing allocator hands out |
| ArenaMemory.ReuseKeeps | Libraries/Include/google/protobuf/arena_impl.h:229-245 | so does giving a region of the partition another role and a shorter extent |
| ArenaEffects.LiveWrite | Libraries/Include/google/protobuf/arena_impl.h:254-269 | an owner may write anywhere in its live region: allocator state and other live regions are undisturbed |
| ArenaEffects.ObjectEffect | Libraries/Include/google/protobuf/arena_impl.h:272-279 | the registers after a bump mirror the memory with one more live region, disjoint from all others |
| ArenaEffects.NodeEffect | Libraries/Include/google/protobuf/arena_impl.h:335-363 | writing a node below the limit stores it as the last registered and touches no live region |
| ArenaEffects.BlockEffect | Libraries/Include/google/protobuf/arena.cc:152-181 | the header writes of a new block keep all stored headers, nodes and lists |
| ArenaEffects.TakeEffect | Libraries/Include/google/protobuf/arena_impl.h:229-245 | unlinking the newest cached block leaves all other lists and links stored |
| ArenaEffects.ReturnEffect | Libraries/Include/google/protobuf/arena_impl.h:282-323 | linking a returned array makes it the head of its list and keeps the others |
| ArenaEffects.TableEffect | Libraries/Include/google/protobuf/arena_impl.h:282-323 | after the move of the table memory and registers describe each other again and no live byte changed; what is on the lists then is TableLengthens |
| ArenaCaching.TakePops | Libraries/Include/google/protobuf/arena_impl.h:229-245 | taking removes exactly the newest address of one list |
| ArenaCaching.ReturnPushes | Libraries/Include/google/protobuf/arena_impl.h:282-323 | returning adds exactly that address to one list |
| ArenaCaching.TableLengthens | Libraries/Include/google/protobuf/arena_impl.h:282-323 | replacing the table leaves every list with the addresses it had and adds empty ones, up to size / 8 or 64 |
| ArenaCaching.CachedExactly | Libraries/Include/google/protobuf/arena_impl.h:229-323 | a region is cached if and only if it is on a list, at the place it says |
| ArenaCaching.StaysOnList | Libraries/Include/google/protobuf/arena_impl.h:229-323 | over any run of returns, takes and replacements, what is on a list stays there in place until more is taken from it than was returned to it |
| ArenaCaching.ReturnedComesBack | Libraries/Include/google/protobuf/arena_impl.h:229-323 | in any run the first take not matched by a later return gets the array returned before |
| SerialArenas.SerialArena.New | Libraries/Include/google/protobuf/arena.cc:107-123 | a fresh arena in its first block: header and embedded object are its only regions |
| SerialArenas.SerialArena.HasSpace | Libraries/Include/google/protobuf/arena_impl.h:224-226 | the two ends never cross, so the size_t comparison with its wrapping difference is the exact one |
| SerialArenas.SerialArena.GetSpaceUsed | Libraries/Include/google/protobuf/arena.cc:183-189 | the exact sum of bumped object bytes over all blocks |
| SerialArenas.SerialArena.AllocateNewBlock | Libraries/Include/google/protobuf/arena.cc:152-181 | afterwards the request fits, nothing live moved, the space bound holds for it |
| SerialArenas.SerialArena.AllocateFromExisting | Libraries/Include/google/protobuf/arena_impl.h:272-279 | the unchecked bump returns a fresh region of n bytes disjoint from every other |
| SerialArenas.SerialArena.AllocateAligned | Libraries/Include/google/protobuf/arena_impl.h:254-269 | a fresh, aligned, disjoint live region; the amortised bound is kept; no live byte changes; the chain stays one that calls have grown |
| SerialArenas.SerialArena.MaybeAllocateAligned | Libraries/Include/google/protobuf/arena_impl.h:327-333 | succeeds exactly when the newest block has room |
| SerialArenas.SerialArena.TryAllocateFromCachedBlock | Libraries/Include/google/protobuf/arena_impl.h:229-245 | pops exactly the newest address of the request's list, if there is one; the other lists stay as they are |
| SerialArenas.SerialArena.AllocateAlignedForArray | Libraries/Include/google/protobuf/arena_impl.h:254-269 | the array lies in a live region disjoint from all live regions, the newest of its list, or from a block with the lists unchanged |
| SerialArenas.SerialArena.ReturnArrayMemory | Libraries/Include/google/protobuf/arena_impl.h:282-323 | its list has this address more and nothing else changes, or it becomes the table: all lists keep their addresses and min(size / 8, 64) lists exist; at most three growths |
| SerialArenas.SerialArena.GrowTable | Libraries/Include/google/protobuf/arena_impl.h:282-323 | copying the old entries and zeroing the rest keeps every list's addresses and adds empty lists, read from the old table while the new one is written |
| SerialArenas.SerialArena.AllocateAlignedWithCleanup | Libraries/Include/google/protobuf/arena_impl.h:335-355 | one bump and one node reserved together, both fit |
| SerialArenas.SerialArena.SetCleanup | Libraries/Include/google/protobuf/arena_impl.h:335-363 | the node becomes the last registered |
| SerialArenas.SerialArena.AddCleanup | Libraries/Include/google/protobuf/arena_impl.h:358-363 | registration appends exactly this cleanup, hands out no object bytes and is one call of the growing chain |
| SerialArenas.SerialArena.CleanupList | Libraries/Include/google/protobuf/arena.cc:191-206 | what runs is the reverse of registration if and only if no later odd-sized block holds a single node; and always if policy and first block are safe |
| SerialArenas.SerialArena.RunNodes | Libraries/Include/google/protobuf/arena.cc:191-206 | one block's nodes run newest first, or not at all when the pointer difference truncates to 0 |
| SerialArenas.SerialArena.Free | Libraries/Include/google/protobuf/arena.cc:125-135 | hands over every block but the oldest once, newest first, reading only memory not yet handed over |
| ArenaCleanup.RunsInReverse | Libraries/Include/google/protobuf/arena.cc:191-206 | the exact condition on a chain of blocks for every cleanup to run in reverse order |
| ArenaCleanup.SingleNodeInOddBlockIsSkipped | Libraries/Include/google/protobuf/arena.cc:191-206 | a concrete chain on which a registered cleanup never runs |
| SerialArenas.DefaultPolicySkips | Libraries/Include/google/protobuf/arena.cc:152-206 | that chain comes about with the default policy: a first block of 257 bytes, one allocation, one AddCleanup; CleanupList runs nothing |
| SerialArenas.ReturnedArrayComesBack | Libraries/Include/google/protobuf/arena_impl.h:229-323 | two arrays of 16 bytes and one of 64 returned, the table replaced in between: the next request for 16 bytes gets the second |
| ArenaGrowth.GrownMore | Libraries/Include/google/protobuf/arena.cc:152-181 | any allocation or registration leads from a chain grown by calls to another |
| ArenaGrowth.NextIsTidy | Libraries/Include/google/protobuf/arena.cc:56-80 | under a safe policy each next block is whole words long or too short for a node, and the policy stays safe for the one after |
| ArenaGrowth.SafeRuns | Libraries/Include/google/protobuf/arena.cc:191-206 | for a safe policy and first block every cleanup runs, in reverse order, after any sequence of calls |
| ArenaGrowth.UnsafeSkips | Libraries/Include/google/protobuf/arena.cc:56-206 | for any other a few calls lead to a cleanup that is not run |
| ArenaGrowth.CleanupsRunExactly | Libraries/Include/google/protobuf/arena.cc:56-206 | all cleanups run after every sequence of calls if and only if the largest size is at most 40, or it is in words and so is the first doubling unless it is capped |
| ArenaGrowth.WordsAreSafe | Libraries/Include/google/protobuf/arena.cc:56-80 | a largest size in words and a first block in half words are enough |
| ArenaGrowth.BlockSizes | Libraries/Include/google/protobuf/arena.cc:56-80 | in any grown chain each block is twice the one before up to the largest size, or larger for one request, and then that request fills it |
| ArenaGrowth.DoublingSizes | Libraries/Include/google/protobuf/arena.cc:56-80 | while no block was enlarged for a request, block k is min(first * 2^k, largest) |
| ArenaApi.BytesForAligned | Libraries/Include/google/protobuf/arena.h:319-330 | the padded size is a whole number of words exactly when the size is, for alignments above 8 |
| ArenaApi.AlignedFits | Libraries/Include/google/protobuf/arena.h:319-330 | the aligned object fits in the padded allocation |
| ArenaApi.AllocateAligned | Libraries/Include/google/protobuf/arena.h:319-330 | any power-of-two alignment: aligned result inside a fresh disjoint live region, for exactly the size rounded up to words, or size plus alignment less 8 |
| ArenaApi.AllocateInternal | Libraries/Include/google/protobuf/arena.h:592-612 | the same, and the destructor registered is that of the aligned address |
| ThreadSafeArenas.ThreadSafeArena.constructor | Libraries/Include/google/protobuf/arena_impl.h:458-463 | an empty arena whose tag says whether a message owns it |
| ThreadSafeArenas.ThreadSafeArena.Deallocate | Libraries/Include/google/protobuf/arena.cc:82-105 | every record in the block is gone and its size is counted |
| ThreadSafeArenas.ThreadSafeArena.SpaceAllocated | Libraries/Include/google/protobuf/arena.cc:460-467 | the sum of all block sizes |
| ThreadSafeArenas.ThreadSafeArena.FreeSerial | Libraries/Include/google/protobuf/arena.cc:125-135 | frees all but the oldest block, leaving the SerialArena and the rest of the list readable |
| ThreadSafeArenas.ThreadSafeArena.FreeNext | Libraries/Include/google/protobuf/arena.cc:363-371 | one turn of the walk: frees the block held back and this SerialArena's, conserving blocks and bytes |
| ThreadSafeArenas.ThreadSafeArena.Free | Libraries/Include/google/protobuf/arena.cc:363-371 | frees each block once and returns the very last, the policy still readable |
| ThreadSafeArenas.ThreadSafeArena.GetSerialArenaFallback | Libraries/Include/google/protobuf/arena.cc:483-508 | finds the caller's own SerialArena or puts a new one in front; on an empty arena the space is then the larger of the start size and 104, 256 by default |
| ThreadSafeArenas.ThreadSafeArena.AllocateNewBlock | Libraries/Include/google/protobuf/arena.cc:152-181 | a SerialArena in the list gets a block in front of its own; the list stays well formed |
| ThreadSafeArenas.ThreadSafeArena.CleanupList | Libraries/Include/google/protobuf/arena.cc:478-480 | runs the cleanups of every SerialArena of the list, in list order |
| ThreadSafeArenas.ThreadSafeArena.AddCleanup | Libraries/Include/google/protobuf/arena.cc:423-429 | a SerialArena anywhere in the list is given a cleanup; list and blocks stay as they are |
| ThreadSafeArenas.ThreadSafeArena.Init | Libraries/Include/google/protobuf/arena.cc:301-328 | new id, old tag bit, empty list, no hint |
| ThreadSafeArenas.ThreadSafeArena.SetInitialBlock | Libraries/Include/google/protobuf/arena.cc:330-336 | the block becomes the only one of the only SerialArena |
| ThreadSafeArenas.ThreadSafeArena.InitializeFrom | Libraries/Include/google/protobuf/arena.cc:229-239 | the user's block is used exactly when it can hold a SerialArena |
| ThreadSafeArenas.ThreadSafeArena.InitializeWithPolicy | Libraries/Include/google/protobuf/arena.cc:241-299 | the policy is stored in the first block, the user's exactly when it has room for it |
| ThreadSafeArenas.ThreadSafeArena.Reset | Libraries/Include/google/protobuf/arena.cc:373-409 | runs every cleanup while all blocks are there, returns what SpaceAllocated was, frees every block once except the user's, which stays the same block; keeps policy, ownership and tag |
| ThreadSafeArenas.ThreadSafeArena.Destroy | Libraries/Include/google/protobuf/arena.cc:338-361 | runs every cleanup, then frees every block once except the user's and reports the total |
| ArenaIds.FetchIsNew | Libraries/Include/google/protobuf/arena.cc:301-322 | the id drawn differs from every id drawn before, and none drawn before will be drawn again |
| ArenaIds.NotInOthersBatch | Libraries/Include/google/protobuf/arena.cc:307-317 | no other thread's batch still contains the id drawn |
| ArenaIds.IdsKept | Libraries/Include/google/protobuf/arena.cc:301-322 | every step of every thread keeps ids of arenas in use, drawn ids and cached ids apart |
| ArenaIds.TagSurvives | Libraries/Include/google/protobuf/arena.cc:318-320 | no step changes an arena's message-owned tag |
| ArenaLists.SearchFinds | Libraries/Include/google/protobuf/arena.cc:483-491 | the list search finds a thread's one SerialArena wherever it is |
| ArenaLists.PassedEntry | Libraries/Include/google/protobuf/arena.cc:483-491 | a search in progress stands on an allocated entry of the current list, having passed none of its own |
| ArenaListsKept.StepIsMild | Libraries/Include/google/protobuf/arena.cc:483-508 | to all other threads a step is at most a push on a list they use |
| ArenaListsKept.OtherPc | Libraries/Include/google/protobuf/arena.cc:483-508 | what another thread knows at its step stays true |
| ArenaListsKept.PushKeepsList | Libraries/Include/google/protobuf/arena.cc:499-504 | a successful compare-exchange prepends to an unchanged list and keeps one SerialArena per owner |
| ArenaListsKept.FreeOneListOk | Libraries/Include/google/protobuf/arena.cc:363-371 | freeing the entry in front leaves the rest of the list intact |
| ArenaListsKept.HomesKept | Libraries/Include/google/protobuf/arena.cc:483-508 | every allocated SerialArena is in exactly one list or in its creator's hands |
| ArenaListsKept.FastCacheKnows | Libraries/Include/google/protobuf/arena_impl.h:581-592 | a thread cache that matches the arena's id yields this thread's SerialArena of this arena |
| ArenaListsKept.HintKnows | Libraries/Include/google/protobuf/arena_impl.h:567-579 | so does a hint that the thread owns |
| ArenaListsKept.CreationKnows | Libraries/Include/google/protobuf/arena.cc:493-504 | up to its push the thread still has nothing in the list, through every failed exchange |
| ArenaListsKept.PublishedCacheOk | Libraries/Include/google/protobuf/arena.cc:318-322 | a new id matches no thread's cache |
| ArenaListsKept.CachesKept | Libraries/Include/google/protobuf/arena_impl.h:557-565 | a matching cache holds the owner's entry, through the three separate stores |
| ArenaListsKept.ListsKept | Libraries/Include/google/protobuf/arena.cc:483-508 | every step of every thread keeps the whole invariant |
| ArenaProtocolSafety.RunOk | Libraries/Include/google/protobuf/arena.cc:301-508 | the invariant holds at every point of every run |
| ArenaProtocolSafety.GotIsFound | Libraries/Include/google/protobuf/arena_impl.h:567-592 | whichever path a thread got its SerialArena by, it is what a search of the live arena's current list finds |
| ArenaProtocolSafety.CacheIsFound | Libraries/Include/google/protobuf/arena_impl.h:581-592 | a cache hit is never left over from a reset or destroyed arena |
| ArenaProtocolSafety.HintIsFound | Libraries/Include/google/protobuf/arena_impl.h:567-579 | the hint may be followed, and is the search's answer when owned |
| ArenaProtocolSafety.NothingToFind | Libraries/Include/google/protobuf/arena.cc:483-504 | a thread creates and pushes a SerialArena only while the list has none of its own |
| ArenaProtocolSafety.ListsAreWellFormed | Libraries/Include/google/protobuf/arena.cc:483-508 | every list is finite, ends at null and has at most one SerialArena per thread |
| ArenaProtocolSafety.NoUseAfterFree | Libraries/Include/google/protobuf/arena.cc:363-371 | no step of any run follows a pointer to a freed SerialArena, and none is freed twice |
| ArenaProtocolSafety.OlderListIsSuffix | Libraries/Include/google/protobuf/arena.cc:460-508 | while an arena lives, an older list is a suffix of every later one and walking it still visits the same entries |
| ArenaProtocolSafety.IdsNeverRepeat | Libraries/Include/google/protobuf/arena.cc:301-322 | no two initialisations in a run receive the same id, and bit 0 of every id is free |
| ArenaProtocolSafety.CacheAnswers | Libraries/Include/google/protobuf/arena_impl.h:557-592 | a concrete run in which an arena is created, a SerialArena pushed, and the thread cache answers with it |
| ArenaProtocolSafety.LifeOfAnArena | Libraries/Include/google/protobuf/arena.cc:338-371 | that run goes on to free and destroy the arena, leaving nothing allocated |
| ArenaProtocolSafety.TagNeverChanges | Libraries/Include/google/protobuf/arena.cc:318-320 | the tag bit is the same at any two points of an arena's existence |
| ArenaLookup.SearchAlone | Libraries/Include/google/protobuf/arena.cc:483-491 | undisturbed, the search walks to the thread's own SerialArena, or to the end if it has none |
| ArenaLookup.PushAlone | Libraries/Include/google/protobuf/arena.cc:493-504 | undisturbed, a new SerialArena is put in front of the unchanged list |
| ArenaLookup.LookupAlone | Libraries/Include/google/protobuf/arena.cc:483-508 | undisturbed, the whole lookup gets the SerialArena the list has for the thread, or a new one, and remembers it |
| ArenaLookup.FastPathsAnswer | Libraries/Include/google/protobuf/arena_impl.h:567-592 | what a lookup left behind is what cache and hint answer the next time; a hint of another thread does not answer |
| Wire.VarintRoundTrip | Libraries/Include/google/protobuf/io/coded_stream.h:898-922 | reading a written varint gives the value and what followed |
| Wire.VarintLength | Libraries/Include/google/protobuf/io/coded_stream.h:1744-1752 | a varint has one byte for each seven bits of the value |
| Wire.VarintDigits | Libraries/Include/google/protobuf/io/coded_stream.h:898-922 | byte k is bits 7k to 7k + 6, plus 128 unless it is the last |
| Wire.VarintSizeIsLength | Libraries/Include/google/protobuf/io/coded_stream.h:1728-1752 | the multiply-and-shift size formula equals the number of bytes written |
| Wire.SizeRoundTrip | Libraries/Include/google/protobuf/parse_context.cc:351-369 | a length prefix is read back exactly when it is at most INT_MAX - 16 |
| Wire.FixedRoundTrip | Libraries/Include/google/protobuf/wire_format.cc:192-228 | a fixed-width word is read back |
| Wire.FixedDigits | Libraries/Include/google/protobuf/wire_format.cc:192-228 | byte k is bits 8k to 8k + 7 |
| Wire.VarintParse | Libraries/Include/google/protobuf/parse_context.h:538-552 | the subtract-one-and-add loop, in 32 then 64 bits, computes the varint modulo 2^64 or rejects it after ten bytes |
| Wire.VarintParseSlow64 | Libraries/Include/google/protobuf/parse_context.cc:327-338 | its continuation from the third byte on |
| Wire.ParseTag | Libraries/Include/google/protobuf/parse_context.h:561-577 | the same in 32-bit arithmetic for at most five bytes |
| Wire.ReadTagFallback | Libraries/Include/google/protobuf/parse_context.cc:340-349 | its continuation from the third byte on |
| Wire.ParseSize | Libraries/Include/google/protobuf/parse_context.h:705-715 | lengths of up to five bytes, refused within 16 of INT_MAX |
| Wire.ParseFifthSizeByte | Libraries/Include/google/protobuf/parse_context.cc:361-369 | the fifth byte may not bring the length to 2^31 |
| Parser.ReadString | Libraries/Include/google/protobuf/parse_context.cc:391-396 | a length and that many bytes, or failure |
| Parser.LoadFixed | Server/Struct.pb.cc:835-842 | a little-endian word |
| Parser.ParsePlainUnknown | Libraries/Include/google/protobuf/parse_context.h:881-925 | an unknown field of each wire type |
| Parser.ParseUnknownField | Libraries/Include/google/protobuf/parse_context.h:881-925 | the same with groups, depth limited, field number 0 refused |
| Parser.ParseUnknownGroup | Libraries/Include/google/protobuf/parse_context.h:927-943 | the fields up to the tag that ends the group |
| Parser.ReadPackedVarint | Libraries/Include/google/protobuf/parse_context.h:822-866 | exactly the varints of a packed run, or failure |
| Parser.ParseNumber | Server/Struct.pb.cc:827-873 | a singular number in its kind's width |
| Parser.ParseNumbers | Server/Protocol.pb.cc:2010-2020 | the elements of a packed run or a single one |
| Parser.ParseMessage | Libraries/Include/google/protobuf/parse_context.cc:267-286 | the submessage's bytes, one level deeper, continuing the message given |
| Parser.ParseFieldValue | Server/Struct.pb.cc:1677-1733 | the new value of a known field |
| Parser.ParseRun | Server/Protocol.pb.cc:1824-1832 | the run that expects the same tag again appends what parsing field by field would |
| Parser.ParseOne | Server/Struct.pb.cc:1676-1750 | one turn of the parse loop: known field, end of message, or unknown field |
| Parser.InternalParse | Server/Struct.pb.cc:1671-1758 | the parse loop builds exactly the message the bytes mean, and fails exactly when they mean none |
| Parser.ParseFromArray | Libraries/Include/google/protobuf/message_lite.cc:138-150 | the same for a whole packet from a cleared message; which packets are accepted is Nesting.AcceptedExactly |
| Serializer.WriteVarint | Libraries/Include/google/protobuf/io/coded_stream.h:898-922 | low bytes first, continuation bits added afterwards: the varint at the pointer and nothing else |
| Serializer.UnsafeWriteSize | Libraries/Include/google/protobuf/io/coded_stream.h:924-933 | the same bytes written with their continuation bits |
| Serializer.WriteFixed | Server/Struct.pb.cc:911-919 | writes a little-endian word and nothing else |
| Serializer.UnknownsSize | Libraries/Include/google/protobuf/wire_format.cc:266-306 | the size of the unknown fields agrees with their bytes |
| Serializer.NumberSize | Server/Struct.pb.cc:966-1030 | the size of a singular number, tag included, is its byte count |
| Serializer.PackedFieldSize | Server/Protocol.pb.cc:2074-2087 | the size of a packed field agrees with its bytes and its cached size is the right prefix |
| Serializer.ManySize | Server/Protocol.pb.cc:1888-1893 | the size of a repeated submessage field agrees with its bytes, all sizes cached |
| Serializer.FieldSize | Server/Struct.pb.cc:1832-1876 | the size of any field agrees with its bytes |
| Serializer.ByteSizeLong | Server/Struct.pb.cc:1825-1879 | equals the bytes then written, up to the 2 GiB where both exceed the limit, and leaves correct cached sizes everywhere |
| Serializer.WriteUnknowns | Libraries/Include/google/protobuf/wire_format.cc:192-228 | writes the unknown fields' bytes and nothing else |
| Serializer.WritePacked | Libraries/Include/google/protobuf/io/coded_stream.h:875-887 | with the cached size, writes the packed field |
| Serializer.WriteMessage | Libraries/Include/google/protobuf/wire_format_lite.cc:542-551 | with the cached size as prefix, writes the submessage |
| Serializer.WriteMany | Server/Protocol.pb.cc:1865-1871 | writes all elements in order |
| Serializer.WriteField | Server/Struct.pb.cc:1766-1815 | writes a field, nothing for a default value |
| Serializer.InternalSerialize | Server/Struct.pb.cc:1760-1823 | after ByteSizeLong, writes exactly the message's bytes and nothing else |
| Serializer.SerializeToArray | Libraries/Include/google/protobuf/message_lite.cc:471-487 | succeeds exactly when the bytes fit the buffer and 2 GiB, and then writes them; which bytes is PacketBytes.PacketLayout |
| Serializer.MergeImpl | Server/Struct.pb.cc:1888-1921 | field by field in place, gives the merged message |
| Serializer.MergeField | Server/Struct.pb.cc:1896-1920 | replaces, descends or appends by kind; defaults change nothing |
| Serializer.CopyFrom | Server/Struct.pb.cc:1923-1928 | the result equals the source |
| CodecLaws.MergedAt | Server/Struct.pb.cc:1888-1921 | merging acts on each field independently and appends unknown fields |
| CodecLaws.MergeIntoEmpty | Server/Struct.pb.cc:1923-1928 | merging into a cleared message copies |
| CodecLaws.MergeAssociative | Server/Struct.pb.cc:1888-1921 | merging is associative, present-but-empty submessages included |
| CodecLaws.UnknownLaw | Libraries/Include/google/protobuf/unknown_field_set.cc:300-344 | an unknown field, groups included, is read back exactly when lengths and depth allow |
| CodecLaws.FlatLaw | Server/Struct.pb.cc:821-964 | a non-default number, text or packed value is read back: negative enums and every float bit pattern kept |
| CodecLaws.ManyLaw | Server/Protocol.pb.cc:1817-1879 | a serialized repeated field appends its elements |
| CodecLaws.FieldLaw | Server/Struct.pb.cc:1671-1823 | reading any serialized field merges its value |
| CodecLaws.MergeLaw | Server/Struct.pb.cc:1671-1921 | reading a serialized message on top of another merges it and goes on, and fails exactly when it is not readable |
| CodecLaws.RoundTrip | Server/Struct.pb.cc:1671-1823 | parse(serialize(m)) == m if and only if m is readable field by field; in terms of m alone it is Nesting.AcceptedExactly |
| CodecLaws.LastOneWins | Server/Struct.pb.cc:821-897 | a singular number or text read twice has the second value; a merge keeps the older one only where the newer is default |
| Nesting.MessageReadable | Libraries/Include/google/protobuf/parse_context.cc:267-286 | a short message is readable exactly when its texts are valid and its submessages and unknown groups nest within the limit |
| Nesting.AcceptedExactly | Libraries/Include/google/protobuf/message_lite.cc:138-150 | what is written is read back if and only if all texts are valid and nothing nests deeper than 100; otherwise it is refused |
| Nesting.MessageHeight | Libraries/Include/google/protobuf/parse_context.cc:267-286 | a message nests no deeper than its schema and its unknown groups together |
| Nesting.GroupsToTheLimit | Libraries/Include/google/protobuf/parse_context.h:927-943 | n start-group bytes and n end-group bytes are accepted exactly for n up to 100 |
| CodecLaws.ConcatenationMerges | Server/Protocol.pb.cc:1817-1916 | parsing two serialized messages in a row is merging them |
| Packets.IdsFromAnyMix | Server/Protocol.pb.cc:2004-2042 | S_DESPAWN ids arrive in order from any mix of packed runs and single numbers |
| Packets.LongTextIsRefused | Libraries/Include/google/protobuf/parse_context.cc:361-369 | texts of the last lengths below 2 GiB serialize but are refused when read |
| PacketBytes.NamesLayout | Server/Struct.pb.cc:378-405 | the bytes of a JoinInfo and of a LoginInfo: tags 10 and 18 before the texts |
| PacketBytes.MonsterInfoLayout | Server/Struct.pb.cc:1202-1215 | the bytes of a MonsterInfo: tag 8 |
| PacketBytes.PosInfoLayout | Server/Struct.pb.cc:899-960 | the bytes of a PosInfo: tags 8, 21, 29, 37, 45, 48, floats low byte first, a negative enum as 64 bits |
| PacketBytes.CreatureInfoLayout | Server/Struct.pb.cc:1414-1450 | the bytes of a CreatureInfo: tags 8, 16, 24, 32 |
| PacketBytes.ObjectInfoLayout | Server/Struct.pb.cc:1760-1823 | the bytes of an ObjectInfo: tags 8, 18, 24, 32, and 42, 50, 58 before its three submessages |
| PacketBytes.PacketLayout | Server/Protocol.pb.cc:549-3300 | the bytes of each of the sixteen packets, tag by tag, with lengths and packed runs spelled out |
| PacketBytes.PacketIsRead | Server/Protocol.pb.cc:512-3268 | those bytes are read back as the packet, for valid texts, unknown groups up to 98 deep and less than about 2 GiB |
| PacketBytes.PacketsMerge | Server/Protocol.pb.cc:1817-2109 | the bytes of two packets of a type, one after the other, are read as their merge |
| PacketBytes.UnknownLayout | Libraries/Include/google/protobuf/wire_format.cc:192-228 | unknown fields are written under their own number and wire type 0, 1, 2, 3 and 4, or 5 |
| PacketBytes.SecondNumberCounts | Server/Protocol.pb.cc:2599-2643 | tag 8 twice in a C_ATTACK: the second number counts, be it 0 |
| PacketBytes.NonZeroIsTrue | Server/Protocol.pb.cc:694-730 | S_JOIN.success is true for any varint but 0 |
| PacketBytes.EnumIsTruncated | Server/Struct.pb.cc:866-878 | PosInfo.state keeps the low 32 bits of the varint read |
| PacketBytes.WrongWireTypeIsUnknown | Server/Protocol.pb.cc:2605-2643 | field 1 of C_ATTACK as a length-delimited field is kept as unknown |
| PacketBytes.StrayTagsAreRefused | Libraries/Include/google/protobuf/parse_context.h:881-925 | tag 0, an end-group tag and field number 0 are refused |
| PacketBytes.MovesMerge | Server/Protocol.pb.cc:2249-2300 | two C_MOVE packets merge their PosInfo field by field |
| PacketBytes.ChatExample | Server/Protocol.pb.cc:3269-3295 | player 7 saying "hi" is 08 07 12 02 68 69, both ways |
| Reencoding.BodyKeeps | Server/Struct.pb.cc:1671-1758 | whatever is parsed is well formed: what is stored as unknown is unknown to the schema |
| Reencoding.ShortIsReadable | Libraries/Include/google/protobuf/parse_context.cc:267-286 | a message that was accepted and is short can be read back |
| Reencoding.Reencode | Server/Struct.pb.cc:1671-1823 | receiving, sending on and receiving again gives the same message |
| Framing.MakeSendBuffer | Server/ServerPacketHandler.h:83-102 | the buffer is the packet's frame if and only if packet and header fit in 16 bits; otherwise what it is instead |
| Framing.PacketHandlers.Init | Server/ServerPacketHandler.h:44-55 | every id below 65535 has the handler registered for it |
| Framing.PacketHandlers.HandlePacket | Server/ServerPacketHandler.h:57-81 | for frames of at least 4 bytes and ids below 65535: parses what follows the header for the handler in the table (SevenHandlers says which), calls it or refuses |
| Framing.SevenHandlers | Server/ServerPacketHandler.h:44-55 | after Init entry 1000 is C_JOIN's own handler, 1002 C_LOGIN's, 1004, 1006, 1010, 1012 and 1014 likewise, and every other is Invalid |
| Framing.FramedRoundTrip | Server/ServerPacketHandler.h:57-102 | the frame of a packet, byte by byte, calls the handler of the packet's own type with an equal packet, if its texts are valid and it nests within 100 |
| Framing.FrameLayout | Server/ServerPacketHandler.h:83-102 | size and id as two bytes each, the lower first, then the payload |
| Framing.MoveIsHandled | Server/ServerPacketHandler.h:57-81 | the eight bytes of a C_MOVE call its handler with that PosInfo |
| Framing.MakeServerBuffer | Server/ServerPacketHandler.h:62-70 | the nine overloads: the frame under ids 1001 to 1015 if it fits in 65535 bytes |
| Receiving.RecvBuffer.constructor | ServerLibrary/RecvBuffer.h:9-12 | ten times the buffer size, empty |
| Receiving.RecvBuffer.Clean | ServerLibrary/RecvBuffer.h:15-29 | keeps the unread bytes and makes room for a full receive |
| Receiving.RecvBuffer.OnRead | ServerLibrary/RecvBuffer.h:16-29 | drops exactly the bytes read, or refuses |
| Receiving.RecvBuffer.OnWrite | ServerLibrary/RecvBuffer.h:17-29 | appends exactly the bytes received, or refuses |
| Receiving.OnRecv | Server/GameSession.h:6-17 | hands on exactly the complete frames in front and keeps the rest; stuck exactly at a header of size 0 |
| Receiving.CutGoesOn | Server/GameSession.h:6-17 | cutting more bytes goes on where cutting the first stopped |
| Receiving.PacketSession.ProcessRecv | ServerLibrary/RecvBuffer.h:15-22 | after every receive the frames handed on are those of the whole stream so far; only an empty receive disconnects |
| Receiving.NoOverlap | ServerLibrary/RecvBuffer.h:15 | the memcpy that compacts the buffer never has overlapping ranges |
| Receiving.FirstFramesArrive | Server/GameSession.h:6-17 | however the network splits a stream of packets, the frames handed on are the first ones sent, in order |
| Receiving.EachIsHandled | Server/ServerPacketHandler.h:57-81 | handling the k-th frame of a stream of packets calls the handler of its packet's type with that packet |
| Patterns.PadSpec | Libraries/Include/spdlog/pattern_formatter-inl.h:1258-1301 | no pad spec asks for more than 64 characters |
| Patterns.WidthIsRead | Libraries/Include/spdlog/pattern_formatter-inl.h:1258-1301 | a width in decimal is read as that width, up to 64, with side and truncation marks |
| Patterns.CompiledPrintsReading | Libraries/Include/spdlog/pattern_formatter-inl.h:1303-1337 | the compiled list prints what reading the pattern directly says, from any state |
| Patterns.EscapedPrintsItself | Libraries/Include/spdlog/pattern_formatter-inl.h:1198-1200 | a text with every '%' doubled is a pattern that prints the text |
| Patterns.PaddedField | Libraries/Include/spdlog/pattern_formatter-inl.h:42-87 | an exactly sized field takes max(width, size) characters, or the width when truncated, between the right spaces |
| Patterns.ZoneTextExact | Libraries/Include/spdlog/pattern_formatter-inl.h:522-536 | different offsets have different texts; below a hundred hours the text has its declared size |
| Patterns.RefreshedIsRecent | Libraries/Include/spdlog/pattern_formatter-inl.h:541-551 | the offset remembered is that of a message less than ten seconds older, or none exactly while no message has come ten seconds after the epoch |
| Patterns.ElapsedAddsUp | Libraries/Include/spdlog/pattern_formatter-inl.h:778-786 | while time does not go back, the elapsed nanoseconds printed add up to the whole time |
| Patterns.ElapsedUnits | Libraries/Include/spdlog/pattern_formatter-inl.h:778-786 | %u %i %o %O count whole nano-, micro-, milliseconds and seconds, 0 if time went back |
| Patterns.SecsExact | Libraries/Include/spdlog/pattern_formatter-inl.h:841-846 | the second of a time on either side of the epoch |
| Patterns.TextExamples | Libraries/Include/spdlog/pattern_formatter-inl.h:522-536 | decimal and zone texts of some numbers, written out |
| PatternFormatters.HandlePadspec | Libraries/Include/spdlog/pattern_formatter-inl.h:1258-1301 | advances the iterator past exactly the pad spec |
| PatternFormatters.HandleFlag | Libraries/Include/spdlog/pattern_formatter-inl.h:1009-1253 | appends the flag's formatters with nothing remembered; asks for the time exactly when one of them reads it |
| PatternFormatters.CompilePattern | Libraries/Include/spdlog/pattern_formatter-inl.h:1303-1337 | terminates within the pattern with its compiled list |
| PatternFormatters.PadIt | Libraries/Include/spdlog/pattern_formatter-inl.h:78-86 | pads with a prefix of the 64 spaces there are |
| PatternFormatters.FormatPadded | Libraries/Include/spdlog/pattern_formatter-inl.h:42-87 | constructor, text and destructor together give the padded or truncated field |
| PatternFormatters.CompiledNarrow | Libraries/Include/spdlog/pattern_formatter-inl.h:1258-1337 | no compiled field is wider than the 64 spaces |
| PatternFormatters.CountDigits | Libraries/Include/spdlog/details/fmt_helper.h:48-63 | counting four digits at a time gives the length of the decimal text |
| PatternFormatters.FormatMdc | Libraries/Include/spdlog/pattern_formatter-inl.h:800-826 | the loop pads each key and value pair by itself |
| PatternFormatters.FormatElapsed | Libraries/Include/spdlog/pattern_formatter-inl.h:769-793 | the time since the last message, never negative, in whole units, exactly sized |
| PatternFormatters.NotesGoOn | Libraries/Include/spdlog/pattern_formatter-inl.h:541-551 | what the formatters remember is a function of the times of the messages so far |
| PatternFormatters.FormatOne | Libraries/Include/spdlog/pattern_formatter-inl.h:511-551 | every formatter prints what it has to show and what it remembers (date and time, offset, last message) goes on to the next message |
| PatternFormatters.PatternFormatter.constructor | Libraries/Include/spdlog/pattern_formatter-inl.h:936-948 | compiled from the pattern, nothing cached |
| PatternFormatters.PatternFormatter.Default | Libraries/Include/spdlog/pattern_formatter-inl.h:951-959 | the same as compiling "%+" |
| PatternFormatters.PatternFormatter.SetPattern | Libraries/Include/spdlog/pattern_formatter-inl.h:993-997 | recompiles and forgets; the broken-down time stays usable |
| PatternFormatters.PatternFormatter.Format | Libraries/Include/spdlog/pattern_formatter-inl.h:976-991 | for every pattern and message, in any run: the pattern read with the date and time of the message's second (all zero in second 0 if no time was asked for yet), the offset of the last message that refreshed it, and the time since the message before |
| PatternFormatters.PrintsAfresh | Libraries/Include/spdlog/pattern_formatter-inl.h:541-551 | once a time has been asked for, every pattern prints what it prints with all times computed afresh if the zone offset is current, and "%z" only if |
| PatternFormatters.ZoneStartsAtZero | Libraries/Include/spdlog/pattern_formatter-inl.h:538-551 | failing input: before second 10 of the epoch "%z" prints +00:00 whatever the offset |
| PatternFormatters.ZoneKeepsOldOffset | Libraries/Include/spdlog/pattern_formatter-inl.h:541-551 | failing input: within ten seconds after the offset changed "%z" prints the old one |
| PatternFormatters.SteadyZone | Libraries/Include/spdlog/pattern_formatter-inl.h:541-551 | a constant offset is current exactly if it is zero or some message came ten seconds after the epoch |
| PatternFormatters.FullAtSecondZero | Libraries/Include/spdlog/pattern_formatter-inl.h:841-878 | in second 0 a formatter not asked before shows the date of all-zero fields with "%+", right exactly if that is the same text |
| PatternFormatters.FlagTexts | Libraries/Include/spdlog/pattern_formatter-inl.h:1021-1052 | "%v" prints the payload, "%n" the name, "%l" and "%L" the level, "%s" "%g" "%!" the parts of the source location |
| PatternFormatters.TimeFlagTexts | Libraries/Include/spdlog/pattern_formatter-inl.h:1052-1150 | each flag of the broken-down time prints the platform's text for that very flag |
| PatternFormatters.PlainFlagTexts | Libraries/Include/spdlog/pattern_formatter-inl.h:1036-1190 | so do thread, process, line and fraction flags |
| PatternFormatters.ElapsedFlagTexts | Libraries/Include/spdlog/pattern_formatter-inl.h:1201-1224 | elapsed flags print their count in decimal |
| PatternFormatters.MarksPrintNothing | Libraries/Include/spdlog/pattern_formatter-inl.h:1168-1174 | colour marks print nothing |
| PatternFormatters.UnknownFlag | Libraries/Include/spdlog/pattern_formatter-inl.h:1232-1240 | a flag that does not exist is printed as it is |
| PatternFormatters.MdcReading | Libraries/Include/spdlog/pattern_formatter-inl.h:810-826 | "%&" prints keys and values with colons, separated by spaces |

## Left out

- Counters and sizes summed over blocks are unbounded: blocks are disjoint in a 64-bit address space, so their sums do not wrap there. The doubling of a block size, size roundings and masks are modelled in 64 bits.
- The backing allocator is a parameter `mem`; `Backed`, `Offers` and `AwayFromAll` say what is assumed of it (aligned, nonzero, apart from the blocks in use, below 2^64).
- Destructors are recorded in the order they are called, not executed.
- The 32-bit branch of ReturnArrayMemory, ASAN poisoning, metrics and statistics, RTTI hooks and hooks of custom policies beyond their presence.
- Weak memory ordering: every atomic access is one sequentially consistent step.
- Lifecycle ids are drawn only while the generator's next batch stays below 2^64; wrap-around of the generator is not modelled.
- In the thread protocol an arena's blocks are not modelled, only its SerialArenas; the blocks are those of `thread_safe_arena.dfy`. SpaceAllocated and SpaceUsed of an arena in use by others are covered by the suffix property of the list, not as steps of their own.
- ThreadSafeArenas.ThreadSafeArena.GetSerialArenaFallback: the walk and push as one thread alone performs them; interleavings are in the protocol.
- ThreadSafeArenas.ThreadSafeArena.InitializeWithPolicy: the policy is stored behind the first SerialArena, but the bump that reserves its 40 bytes there is not modelled, since that module has no pointers into blocks.
- ThreadSafeArenas.ThreadSafeArena.AddCleanup: what a SerialArena's own CleanupList runs is kept as a list beside it, newest first, as if none were passed over; the blocks the nodes lie in are those of `serial_arena.dfy`.
- ArenaApi.AllocateAligned: an over-aligned size that is no multiple of 8 is excluded; the source stops it by a debug check only.
- ArenaGrowth.CleanupsRunExactly: first blocks and largest sizes from 2^60 bytes on are excluded, because the failing runs need three such blocks in the address space; SafeRuns has no such bound.
- ArenaGrowth.DoublingSizes: first blocks and largest sizes from 2^63 bytes on are excluded, where the doubling wraps; BlockSizes has no such bound.
- Generated messages are modelled as values over a schema, not as one class per message; memory ownership of submessages, arena-allocated messages, reflection, descriptors, swap and move are not modelled. ByteSizeLong visits fields in schema order, not strings first.
- Cached sizes are a tree beside the message instead of a field inside each message.
- The 16-byte slop region and buffer flips of the input stream: reading past a limit is failure at once, where the library notices it at the next check.
- UTF-8 validity is a given predicate.
- Files `api.pb.*`, `any.*` and the tests' own messages: they repeat the same codec shape.
- PacketSession: a frame whose header announces fewer than 4 bytes is handed on as such; what HandlePacket makes of it is not modelled. The socket calls, locks and the send queue are not modelled.
- Framing.PacketHandlers.HandlePacket: id 65535, one past the end of the table, and frames shorter than the 4-byte header, for which the length passed to the parser is negative, are excluded; what registered handlers do and Handle_INVALID's own effect are not modelled.
- Texts of date, time, process, thread, source line and fraction flags are given functions of the message and the broken-down time, and so is the size those flags declare for padding; the padding property is about fields whose size is declared exactly. The broken-down time of a second and its offset from UTC do not change while the formatter is used.
- Elapsed-time formatters of one pattern take one reading of the clock when the pattern is compiled, where each takes its own.
- Truncation by a declared size larger than everything printed so far.
- Custom flags print a given text that does not read the broken-down time; need_localtime called from outside and clone are not modelled.
- Color ranges, sinks, files, queues, rooms, jobs, sockets, databases and thread start-up.
