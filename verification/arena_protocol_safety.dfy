/** What holds in every run of the protocol, for any number of threads and arenas and any
    interleaving of their steps. */
module ArenaProtocolSafety {
  import opened ArenaProtocol
  import opened ArenaIds
  import opened ArenaLists
  import opened ArenaListsKept

  datatype Move = Move(thread: Thread, action: Action)

  ghost predicate CanMove(s: State, m: Move) { Enabled(s, m.thread, m.action) }

  ghost function After(s: State, m: Move): State
    requires CanMove(s, m)
  {
    Apply(s, m.thread, m.action)
  }

  ghost predicate MovesTo(s: State, m: Move, s': State) {
    CanMove(s, m) && s' == After(s, m)
  }

  /** A run of the whole program, from before its first thread. */
  ghost predicate IsRun(states: seq<State>, moves: seq<Move>) {
    && |states| == |moves| + 1 && states[0] == START
    && forall i :: 0 <= i < |moves| ==> MovesTo(states[i], moves[i], states[i + 1])
  }

  ghost predicate Ok(s: State) {
    IdsOk(s) && exists g :: ListsOk(s, g)
  }

  lemma StartOk()
    ensures Ok(START)
  {
    assert ListsOk(START, Shape(map[], map[]));
  }

  lemma StepOk(s: State, m: Move)
    requires Ok(s) && CanMove(s, m)
    ensures Ok(After(s, m))
  {
    hide IdsOk, ListsOk, Enabled, Apply;
    var g :| ListsOk(s, g);
    StampsInUse(s, g, m.thread, m.action);
    IdsKept(s, m.thread, m.action);
    ListsKept(s, g, m.thread, m.action);
  }

  lemma StampsInUse(s: State, g: Shape, t: Thread, action: Action)
    requires ListsOk(s, g) && Enabled(s, t, action)
    ensures StampsIdentified(s, t, action)
  {
    MyPc(s, g, t);
  }

  lemma {:induction false} RunOk(states: seq<State>, moves: seq<Move>, k: nat)
    requires IsRun(states, moves) && k < |states|
    ensures Ok(states[k])
  {
    hide Ok, MovesTo;
    if k == 0 {
      StartOk();
    } else {
      RunOk(states, moves, k - 1);
      MoveOk(states[k - 1], moves[k - 1], states[k]);
    }
  }

  lemma MoveOk(s: State, m: Move, s': State)
    requires Ok(s) && MovesTo(s, m, s')
    ensures Ok(s')
  {
    StepOk(s, m);
  }

  lemma MoveAt(states: seq<State>, moves: seq<Move>, k: nat)
    requires IsRun(states, moves) && k + 1 < |states|
    ensures k < |moves| && MovesTo(states[k], moves[k], states[k + 1])
  {
  }

  // ----- the list of an arena -----

  /** The addresses reached from the head of the arena's list. */
  ghost predicate IsListOf(s: State, a: ArenaId, xs: seq<Addr>) {
    a in s.arenas && Linked(s.heap, s.arenas[a].threads, xs)
  }

  lemma {:induction false} LinkedUnique(heap: Heap, start: Addr, xs: seq<Addr>, ys: seq<Addr>)
    requires Linked(heap, start, xs) && Linked(heap, start, ys)
    ensures xs == ys
    decreases |xs|
  {
    if start != 0 {
      LinkedUnique(heap, heap[start].next, xs[1..], ys[1..]);
      assert xs == [xs[0]] + xs[1..] && ys == [ys[0]] + ys[1..];
    }
  }

  lemma ShapeIsList(s: State, g: Shape, a: ArenaId)
    requires ListsOk(s, g) && InUse(s, a)
    ensures a in g.lists && IsListOf(s, a, g.lists[a])
  {
    assert ArenaOk(s, g, a);
  }

  /** The arena hands thread t the SerialArena x: the one that the search of the list finds. */
  ghost predicate FoundBySearch(s: State, t: Thread, a: ArenaId, x: Addr) {
    && x != 0 && Owned(s.heap, x, t)
    && (exists xs :: IsListOf(s, a, xs) && x in xs)
    && (forall xs :: IsListOf(s, a, xs) ==> Search(s.heap, xs, t) == x)
  }

  lemma MineIsFound(s: State, g: Shape, t: Thread, a: ArenaId, x: Addr)
    requires ListsOk(s, g) && InUse(s, a) && Mine(s, g, t, a, x)
    ensures FoundBySearch(s, t, a, x)
  {
    hide HomesOk, PcsOk, CachesOk, AllAlone;
    ShapeIsList(s, g, a);
    assert ArenaOk(s, g, a);
    ListedNodes(s, g, a, x);
    SearchFinds(s.heap, s.arenas[a].threads, g.lists[a], t, x);
    forall xs | IsListOf(s, a, xs) ensures xs == g.lists[a] {
      LinkedUnique(s.heap, s.arenas[a].threads, xs, g.lists[a]);
    }
  }

  /** However a thread came by its SerialArena - thread cache, hint or search and push - it is
      the one a search of the live arena's current list finds for it. */
  lemma GotIsFound(states: seq<State>, moves: seq<Move>, k: nat, t: Thread)
    requires IsRun(states, moves) && k < |states|
    requires t in states[k].pcs && states[k].pcs[t].Got?
    ensures var pc := states[k].pcs[t]; IsLive(states[k], pc.arena) && FoundBySearch(states[k], t, pc.arena, pc.serial)
  {
    hide IdsOk, ListsOk;
    RunOk(states, moves, k);
    var g :| ListsOk(states[k], g);
    KnowsGot(states[k], g, t);
    MineIsFound(states[k], g, t, states[k].pcs[t].arena, states[k].pcs[t].serial);
  }

  lemma KnowsGot(s: State, g: Shape, t: Thread)
    requires ListsOk(s, g) && t in s.pcs && s.pcs[t].Got?
    ensures var pc := s.pcs[t]; IsLive(s, pc.arena) && InUse(s, pc.arena) && Mine(s, g, t, pc.arena, pc.serial)
  {
    MyPc(s, g, t);
  }

  /** The thread cache answers exactly when it holds what the search would find; it never
      answers with a SerialArena left from before a reset, or of a destroyed arena. */
  lemma CacheIsFound(states: seq<State>, moves: seq<Move>, k: nat, t: Thread, a: ArenaId)
    requires IsRun(states, moves) && k < |states|
    requires IdleAt(states[k], t, a) && states[k].caches[t].lastId == states[k].arenas[a].tagAndId
    ensures FoundBySearch(states[k], t, a, states[k].caches[t].lastSerial)
  {
    hide IdsOk, ListsOk;
    RunOk(states, moves, k);
    var s := states[k];
    var g :| ListsOk(s, g);
    TagIsAnId(s, a);
    CacheIsMine(s, g, t, a);
    MineIsFound(s, g, t, a, s.caches[t].lastSerial);
  }

  lemma CacheIsMine(s: State, g: Shape, t: Thread, a: ArenaId)
    requires ListsOk(s, g) && IdleAt(s, t, a) && s.caches[t].lastId == s.arenas[a].tagAndId != NO_ID
    ensures Mine(s, g, t, a, s.caches[t].lastSerial)
  {
    ThisCacheOk(s, g, t, a);
  }

  /** The hint, when it belongs to the thread, is what the search would find. */
  lemma HintIsFound(states: seq<State>, moves: seq<Move>, k: nat, t: Thread)
    requires IsRun(states, moves) && k < |states|
    requires t in states[k].pcs && states[k].pcs[t].HintLoaded? && states[k].pcs[t].hint != 0
    ensures var HintLoaded(a, h) := states[k].pcs[t];
            && h in states[k].heap && IsLive(states[k], a)
            && (states[k].heap[h].owner == t ==> FoundBySearch(states[k], t, a, h))
  {
    hide IdsOk, ListsOk;
    RunOk(states, moves, k);
    var s := states[k];
    var HintLoaded(a, h) := s.pcs[t];
    var g :| ListsOk(s, g);
    HintIsListed(s, g, t);
    if s.heap[h].owner == t {
      MineIsFound(s, g, t, a, h);
    }
  }

  lemma HintIsListed(s: State, g: Shape, t: Thread)
    requires ListsOk(s, g) && t in s.pcs && s.pcs[t].HintLoaded? && s.pcs[t].hint != 0
    ensures var HintLoaded(a, h) := s.pcs[t];
            h in s.heap && IsLive(s, a) && InUse(s, a) && a in g.lists && h in g.lists[a]
  {
    MyPc(s, g, t);
    ListedNodes(s, g, s.pcs[t].arena, s.pcs[t].hint);
  }

  /** A search that comes to the end found nothing because there is nothing: the thread may add
      a SerialArena without becoming the owner of two, up to and including its push. */
  lemma NothingToFind(states: seq<State>, moves: seq<Move>, k: nat, t: Thread)
    requires IsRun(states, moves) && k < |states| && t in states[k].pcs
    requires var pc := states[k].pcs[t]; pc.Allocating? || pc.LoadingHead? || pc.Linking? || pc.Swapping?
    ensures var a := states[k].pcs[t].arena;
            exists xs :: IsListOf(states[k], a, xs) && NoneOwned(states[k].heap, xs, t)
  {
    hide IdsOk, ListsOk;
    RunOk(states, moves, k);
    var g :| ListsOk(states[k], g);
    NotYet(states[k], g, t);
    ShapeIsList(states[k], g, states[k].pcs[t].arena);
  }

  lemma NotYet(s: State, g: Shape, t: Thread)
    requires ListsOk(s, g) && t in s.pcs
    requires var pc := s.pcs[t]; pc.Allocating? || pc.LoadingHead? || pc.Linking? || pc.Swapping?
    ensures var a := s.pcs[t].arena; InUse(s, a) && a in g.lists && NoneOwned(s.heap, g.lists[a], t)
  {
    MyPc(s, g, t);
  }

  /** Every list is finite, ends at null, and has at most one SerialArena per thread. */
  lemma ListsAreWellFormed(states: seq<State>, moves: seq<Move>, k: nat, a: ArenaId)
    requires IsRun(states, moves) && k < |states| && InUse(states[k], a)
    ensures exists xs :: IsListOf(states[k], a, xs) && OnePerOwner(states[k].heap, xs)
  {
    RunOk(states, moves, k);
    var s := states[k];
    var g :| ListsOk(s, g);
    ShapeIsList(s, g, a);
    assert ArenaOk(s, g, a);
  }

  // ----- nothing freed is read, nothing published is lost -----

  /** The SerialArena a step reads or writes through a pointer, 0 for none. */
  ghost function Dereferenced(s: State, t: Thread, action: Action): Addr
    requires Enabled(s, t, action)
  {
    match action
    case SearchOne => s.pcs[t].cur
    case FreeOne => s.arenas[s.pcs[t].arena].phase.cur
    case Link => s.pcs[t].node
    case CheckHint => s.pcs[t].hint
    case FastCache(_) => s.caches[t].lastSerial
    case _ => 0
  }

  lemma ReadsAlive(s: State, g: Shape, t: Thread, action: Action)
    requires ListsOk(s, g) && IdsOk(s) && Enabled(s, t, action)
    ensures Dereferenced(s, t, action) != 0 ==> Dereferenced(s, t, action) in s.heap
  {
    hide IdsOk, ListsOk;
    match action
    case SearchOne => SearchReadsAlive(s, g, t);
    case FreeOne => FreeReadsAlive(s, g, t);
    case Link => LinkReadsAlive(s, g, t);
    case CheckHint => HintReadsAlive(s, g, t);
    case FastCache(a) => CacheReadsAlive(s, g, t, a);
    case _ =>
  }

  lemma FreeReadsAlive(s: State, g: Shape, t: Thread)
    requires ListsOk(s, g) && Enabled(s, t, FreeOne)
    ensures s.arenas[s.pcs[t].arena].phase.cur in s.heap
  {
    hide HomesOk, AllAlone, Linked, OnePerOwner;
    FreedIsListed(s, g, t);
  }

  lemma LinkReadsAlive(s: State, g: Shape, t: Thread)
    requires ListsOk(s, g) && Enabled(s, t, Link)
    ensures s.pcs[t].node in s.heap
  {
    hide HomesOk, AllAlone, Linked, OnePerOwner;
    MyPc(s, g, t);
  }

  lemma HintReadsAlive(s: State, g: Shape, t: Thread)
    requires ListsOk(s, g) && Enabled(s, t, CheckHint)
    ensures s.pcs[t].hint != 0 ==> s.pcs[t].hint in s.heap
  {
    hide HomesOk, AllAlone, Linked, OnePerOwner;
    MyPc(s, g, t);
    if s.pcs[t].hint != 0 {
      ListedNodes(s, g, s.pcs[t].arena, s.pcs[t].hint);
    }
  }

  lemma CacheReadsAlive(s: State, g: Shape, t: Thread, a: ArenaId)
    requires ListsOk(s, g) && IdsOk(s) && Enabled(s, t, FastCache(a))
    ensures s.caches[t].lastSerial != 0 ==> s.caches[t].lastSerial in s.heap
  {
    hide IdsOk, HomesOk, AllAlone, Linked, OnePerOwner;
    TagIsAnId(s, a);
    CacheIsMine(s, g, t, a);
  }

  lemma SearchReadsAlive(s: State, g: Shape, t: Thread)
    requires ListsOk(s, g) && Enabled(s, t, SearchOne)
    ensures s.pcs[t].cur != 0 ==> s.pcs[t].cur in s.heap
  {
    MyPc(s, g, t);
    var Searching(a, cur) := s.pcs[t];
    assert ArenaOk(s, g, a);
    if cur != 0 {
      PassedEntry(s.heap, s.arenas[a].threads, g.lists[a], cur, t);
    }
  }

  /** No step of any run follows a pointer to a SerialArena that was freed; freeing an arena
      frees each of its SerialArenas while it is still allocated, so once. */
  lemma NoUseAfterFree(states: seq<State>, moves: seq<Move>, k: nat)
    requires IsRun(states, moves) && k < |moves|
    ensures CanMove(states[k], moves[k])
    ensures var p := Dereferenced(states[k], moves[k].thread, moves[k].action); p != 0 ==> p in states[k].heap
  {
    hide IdsOk, ListsOk;
    RunOk(states, moves, k);
    assert MovesTo(states[k], moves[k], states[k + 1]);
    var g :| ListsOk(states[k], g);
    ReadsAlive(states[k], g, moves[k].thread, moves[k].action);
  }

  ghost predicate LiveBetween(states: seq<State>, i: nat, j: nat, a: ArenaId) {
    i <= j < |states| && forall k :: i <= k <= j ==> IsLive(states[k], a)
  }

  ghost predicate IsSuffix(xs: seq<Addr>, ys: seq<Addr>) {
    |xs| <= |ys| && ys[|ys| - |xs|..] == xs
  }

  /** One step of any thread, while the arena stays live: the list has at most one more
      SerialArena, at its head, and a traversal of the old list still sees all of it. */
  lemma StepKeepsList(s: State, m: Move, s': State, a: ArenaId, xs: seq<Addr>, old_: Addr)
    requires Ok(s) && MovesTo(s, m, s') && IsLive(s, a) && IsLive(s', a)
    requires Linked(s.heap, old_, xs)
    requires exists all :: IsListOf(s, a, all) && IsSuffix(xs, all)
    ensures exists all :: IsListOf(s', a, all) && IsSuffix(xs, all)
    ensures Linked(s'.heap, old_, xs)
  {
    hide IdsOk, ListsOk, Enabled, Apply, IsSuffix, SameOn, Extends, Linked;
    var g :| ListsOk(s, g);
    var all :| IsListOf(s, a, all) && IsSuffix(xs, all);
    ShapeIsList(s, g, a);
    LinkedUnique(s.heap, s.arenas[a].threads, all, g.lists[a]);
    StepOk(s, m);
    var g' := NextOf(s, g, m, s');
    ShapeIsList(s', g', a);
    LiveIsSteady(s, g, m, s', g', a);
    GrownSuffix(s'.heap, g.lists[a], g'.lists[a], m.thread, xs);
    SuffixSame(s.heap, s'.heap, g.lists[a], xs);
    LinkedFrame(s.heap, s'.heap, old_, xs);
  }

  lemma GrownSuffix(heap: Heap, ys: seq<Addr>, ys': seq<Addr>, t: Thread, xs: seq<Addr>)
    requires Extends(heap, ys, ys', t) && IsSuffix(xs, ys)
    ensures IsSuffix(xs, ys')
  {
  }

  lemma SuffixSame(heap: Heap, heap': Heap, ys: seq<Addr>, xs: seq<Addr>)
    requires SameOn(heap, heap', ys) && IsSuffix(xs, ys)
    ensures SameOn(heap, heap', xs)
  {
    forall x | x in xs ensures x in ys {
      var i :| 0 <= i < |xs| && xs[i] == x;
      assert ys[|ys| - |xs| + i] == x;
    }
  }

  lemma NextOf(s: State, g: Shape, m: Move, s': State) returns (g': Shape)
    requires Ok(s) && ListsOk(s, g) && MovesTo(s, m, s')
    ensures ListsOk(s', g') && Steps(s, g, m.thread, m.action, s', g')
  {
    ListsKept(s, g, m.thread, m.action);
    g' := NextShape(s, g, m.thread, m.action);
  }

  lemma LiveIsSteady(s: State, g: Shape, m: Move, s': State, g': Shape, a: ArenaId)
    requires ListsOk(s, g) && Steps(s, g, m.thread, m.action, s', g') && IsLive(s, a) && IsLive(s', a)
    ensures Steady(s, g, s', g', m.thread, a)
  {
    hide Steady, ListsOk;
    LiveNotExcepted(s, g, m, s', g', a);
    StepIsMild(s, g, m.thread, m.action, s', g');
  }

  lemma LiveNotExcepted(s: State, g: Shape, m: Move, s': State, g': Shape, a: ArenaId)
    requires ListsOk(s, g) && Steps(s, g, m.thread, m.action, s', g') && IsLive(s, a) && IsLive(s', a)
    ensures a !in Excepted(s, m.thread, m.action)
  {
    MyPc(s, g, m.thread);
  }

  lemma WholeSuffix(xs: seq<Addr>)
    ensures IsSuffix(xs, xs)
  {
  }

  /** A published SerialArena is never lost while the arena is live: an older list is a suffix
      of every later one, and whoever still walks it sees exactly the same SerialArenas. */
  lemma {:induction false} OlderListIsSuffix(states: seq<State>, moves: seq<Move>, i: nat, j: nat, a: ArenaId,
                                             xs: seq<Addr>)
    requires IsRun(states, moves) && LiveBetween(states, i, j, a) && IsListOf(states[i], a, xs)
    ensures exists all :: IsListOf(states[j], a, all) && IsSuffix(xs, all)
    ensures Linked(states[j].heap, states[i].arenas[a].threads, xs)
    decreases j
  {
    hide Linked, IsSuffix, IsRun, Ok, MovesTo, OnePerOwner;
    if i == j {
      WholeSuffix(xs);
    } else {
      var k := j - 1;
      OlderListIsSuffix(states, moves, i, k, a, xs);
      RunOk(states, moves, k);
      MoveAt(states, moves, k);
      assert IsLive(states[k], a) && IsLive(states[j], a);
      StepKeepsList(states[k], moves[k], states[j], a, xs, states[i].arenas[a].threads);
    }
  }

  // ----- lifecycle ids -----

  ghost predicate Draws(states: seq<State>, moves: seq<Move>, k: nat, id: nat) {
    && k < |moves| && k < |states| && moves[k].action.FetchId? && CanMove(states[k], moves[k])
    && DrawnId(states[k], states[k].caches[moves[k].thread]) == id
  }

  lemma DrawnForever(s: State, m: Move, s': State, id: nat)
    requires IdsOk(s) && MovesTo(s, m, s') && Drawn(s, id)
    ensures Drawn(s', id)
  {
    hide Drawn, IdsOk, Enabled, Apply;
    if m.action.FetchId? {
      FetchIsNew(s, m.thread, id);
    } else if m.action.Publish? || m.action.Stamp? {
      DrawsUnchanged(s, m, s');
      SameDraws(s, s', id);
    } else {
      NothingDrawn(m.action);
      KeysAgree(s);
      StepIsQuiet(s, m.thread, m.action);
      DrawnStays(s, s', id);
    }
  }

  lemma DrawsUnchanged(s: State, m: Move, s': State)
    requires MovesTo(s, m, s') && (m.action.Publish? || m.action.Stamp?)
    ensures s'.generator == s.generator && s'.caches.Keys == s.caches.Keys
    ensures forall u :: u in s'.caches ==> s'.caches[u].nextId == s.caches[u].nextId
  {
  }

  lemma {:induction false} StaysDrawn(states: seq<State>, moves: seq<Move>, i: nat, j: nat, id: nat)
    requires IsRun(states, moves) && i < j < |states| && Draws(states, moves, i, id)
    ensures Drawn(states[j], id)
    decreases j
  {
    hide Drawn, IdsOk, Enabled, Apply;
    RunOk(states, moves, j - 1);
    assert MovesTo(states[j - 1], moves[j - 1], states[j]);
    if j == i + 1 {
      FetchIsNew(states[i], moves[i].thread, id);
    } else {
      StaysDrawn(states, moves, i, j - 1, id);
      DrawnForever(states[j - 1], moves[j - 1], states[j], id);
    }
  }

  /** No two initialisations, on any threads, receive the same lifecycle id, and every id
      leaves the tag bit free. */
  lemma IdsNeverRepeat(states: seq<State>, moves: seq<Move>, i: nat, j: nat, id: nat, jd: nat)
    requires IsRun(states, moves) && i < j && Draws(states, moves, i, id) && Draws(states, moves, j, jd)
    ensures id != jd && id % 2 == 0 && jd % 2 == 0
  {
    hide IdsOk, Enabled, Apply;
    StaysDrawn(states, moves, i, j, id);
    RunOk(states, moves, j);
    FetchIsNew(states[j], moves[j].thread, id);
  }

  /** The message-owned tag of an arena is the same in all its lives. */
  lemma {:induction false} TagNeverChanges(states: seq<State>, moves: seq<Move>, i: nat, j: nat, a: ArenaId)
    requires IsRun(states, moves) && i <= j < |states|
    requires forall k :: i <= k <= j ==> a in states[k].arenas
    ensures states[j].arenas[a].tagAndId % 2 == states[i].arenas[a].tagAndId % 2
    decreases j
  {
    hide IsRun, IdsOk, ListsOk, Enabled, Apply;
    if i < j {
      var k := j - 1;
      TagNeverChanges(states, moves, i, k, a);
      RunOk(states, moves, k);
      MoveAt(states, moves, k);
      TagSurvives(states[k], moves[k].thread, moves[k].action, a);
    }
  }

  // ----- a run that uses every path -----

  lemma Extend(states: seq<State>, moves: seq<Move>, t: Thread, action: Action) returns (states': seq<State>,
               moves': seq<Move>)
    requires IsRun(states, moves) && Enabled(states[|moves|], t, action)
    ensures IsRun(states', moves') && |moves'| == |moves| + 1
    ensures states'[|moves'|] == Apply(states[|moves|], t, action)
    ensures moves' == moves + [Move(t, action)]
  {
    hide Enabled, Apply;
    var m := Move(t, action);
    var s := states[|moves|];
    assert CanMove(s, m);
    states', moves' := states + [After(s, m)], moves + [m];
    forall i | 0 <= i < |moves'| ensures MovesTo(states'[i], moves'[i], states'[i + 1]) {
      if i < |moves| {
        assert MovesTo(states[i], moves[i], states[i + 1]);
      }
    }
  }

  const OPENED := State(1, map[7 := ThreadCache(2, NO_ID, 0)], map[7 := Idle], map[3 := Arena(1, 0, 0, Live)], map[])
  const PUSHED := State(1, map[7 := ThreadCache(2, 1, 5)], map[7 := Idle], map[3 := Arena(1, 5, 5, Live)],
                        map[5 := SerialArena(7, 0)])

  lemma OpenArena() returns (states: seq<State>, moves: seq<Move>)
    ensures IsRun(states, moves) && states[|moves|] == OPENED
  {
    hide IsRun;
    states, moves := [START], [];
    StartRun();
    states, moves := Extend(states, moves, 7, Spawn);
    states, moves := Extend(states, moves, 7, Construct(3, true));
    states, moves := Extend(states, moves, 7, FetchId);
    states, moves := Extend(states, moves, 7, Publish);
    states, moves := Extend(states, moves, 7, Open);
  }

  lemma CreateSerial() returns (states: seq<State>, moves: seq<Move>)
    ensures IsRun(states, moves) && states[|moves|].pcs == map[7 := LoadingHead(3, 5)]
    ensures states[|moves|] == OPENED.(pcs := map[7 := LoadingHead(3, 5)], heap := map[5 := SerialArena(7, 0)])
  {
    hide IsRun;
    states, moves := OpenArena();
    states, moves := Extend(states, moves, 7, BeginSearch(3));
    states, moves := Extend(states, moves, 7, SearchOne);
    states, moves := Extend(states, moves, 7, New(5));
  }

  lemma PushSerial() returns (states: seq<State>, moves: seq<Move>)
    ensures IsRun(states, moves)
    ensures states[|moves|] == PUSHED.(pcs := map[7 := Caching(3, 5)], caches := OPENED.caches,
                                       arenas := map[3 := Arena(1, 5, 0, Live)])
  {
    hide IsRun;
    states, moves := CreateSerial();
    states, moves := Extend(states, moves, 7, LoadHead);
    states, moves := Extend(states, moves, 7, Link);
    states, moves := Extend(states, moves, 7, Swap(false));
  }

  lemma StampSerial() returns (states: seq<State>, moves: seq<Move>)
    ensures IsRun(states, moves)
    ensures states[|moves|] == PUSHED.(pcs := map[7 := Hinting(3, 5)], arenas := map[3 := Arena(1, 5, 0, Live)])
  {
    hide IsRun;
    states, moves := PushSerial();
    states, moves := Extend(states, moves, 7, CacheSerial);
    states, moves := Extend(states, moves, 7, Stamp);
  }

  lemma RememberSerial() returns (states: seq<State>, moves: seq<Move>)
    ensures IsRun(states, moves) && states[|moves|] == PUSHED
  {
    hide IsRun;
    states, moves := StampSerial();
    states, moves := Extend(states, moves, 7, SetHint);
    states, moves := Extend(states, moves, 7, Done);
  }

  /** A thread creates an arena, pushes a SerialArena and gets it again from its cache. */
  lemma CacheAnswers() returns (states: seq<State>, moves: seq<Move>)
    ensures IsRun(states, moves) && |moves| > 0 && moves[|moves| - 1].action == FastCache(3)
    ensures states[|moves|] == PUSHED.(pcs := map[7 := Got(3, 5)])
  {
    hide IsRun;
    states, moves := RememberSerial();
    states, moves := Extend(states, moves, 7, FastCache(3));
  }

  /** ... and the arena can be freed and destroyed again: the rules admit whole lives. */
  lemma LifeOfAnArena() returns (states: seq<State>, moves: seq<Move>)
    ensures IsRun(states, moves) && |moves| > 0 && moves[|moves| - 1].action == EndFree(true)
    ensures states[|moves|].arenas == map[] && states[|moves|].heap == map[]
  {
    hide IsRun;
    states, moves := CacheAnswers();
    states, moves := Extend(states, moves, 7, Done);
    states, moves := Extend(states, moves, 7, BeginFree(3));
    states, moves := Extend(states, moves, 7, FreeOne);
    states, moves := Extend(states, moves, 7, EndFree(true));
  }

  lemma StartRun()
    ensures IsRun([START], [])
  {
  }
}
