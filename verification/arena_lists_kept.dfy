/** Every step keeps the lists well formed and keeps true what each thread knows. */
module ArenaListsKept {
  import opened ArenaProtocol
  import opened ArenaIds
  import opened ArenaLists

  // ----- what a step of t leaves alone -----

  /** The list is as before, or has one more SerialArena, of thread t, at its head. */
  ghost predicate Extends(heap': Heap, xs: seq<Addr>, xs': seq<Addr>, t: Thread) {
    xs' == xs || (xs' != [] && xs'[1..] == xs && Owned(heap', xs'[0], t))
  }

  ghost predicate Steady(s: State, g: Shape, s': State, g': Shape, t: Thread, a: ArenaId) {
    && a in s.arenas && a in s'.arenas && a in g.lists && a in g'.lists
    && s'.arenas[a].tagAndId == s.arenas[a].tagAndId
    && s'.arenas[a].phase == s.arenas[a].phase
    && Extends(s'.heap, g.lists[a], g'.lists[a], t)
    && SameOn(s.heap, s'.heap, g.lists[a])
  }

  ghost predicate SamePc(s: State, s': State, u: Thread) {
    && (u in s'.pcs <==> u in s.pcs) && (u in s.pcs ==> s'.pcs[u] == s.pcs[u])
  }

  ghost predicate SameCache(s: State, s': State, u: Thread) {
    && u in s.caches && u in s'.caches
    && s'.caches[u].lastId == s.caches[u].lastId && s'.caches[u].lastSerial == s.caches[u].lastSerial
  }

  ghost predicate KeepsNode(s: State, g: Shape, s': State, g': Shape, t: Thread, n: Addr)
    requires n in g.home
  {
    g.home[n].Private? && g.home[n].thread != t ==>
      n in g'.home && g'.home[n] == g.home[n] && n in s.heap && n in s'.heap && s'.heap[n] == s.heap[n]
  }

  /** A step of t is, for other threads, at most a push on some lists; the excepted arenas
      are no business of theirs. */
  ghost predicate Mild(s: State, g: Shape, s': State, g': Shape, t: Thread, except: set<ArenaId>) {
    && (forall u :: u != t ==> SamePc(s, s', u))
    && (forall u :: u != t && u in s.caches ==> SameCache(s, s', u))
    && (forall a :: a in s.arenas && a !in except ==> Steady(s, g, s', g', t, a))
    && (forall n :: n in g.home ==> KeepsNode(s, g, s', g', t, n))
    && (forall u, a :: u != t && u in s.pcs && a in except ==> !s.pcs[u].Uses(a))
  }

  ghost function Excepted(s: State, t: Thread, action: Action): set<ArenaId>
    requires Enabled(s, t, action)
  {
    match action
    case Construct(a, _) => {a}
    case BeginFree(a) => {a}
    case Publish => {s.pcs[t].arena}
    case Open => {s.pcs[t].arena}
    case FreeOne => {s.pcs[t].arena}
    case EndFree(_) => {s.pcs[t].arena}
    case _ => {}
  }

  lemma OtherPc(s: State, g: Shape, s': State, g': Shape, t: Thread, except: set<ArenaId>, u: Thread)
    requires Mild(s, g, s', g', t, except) && u != t && u in s.pcs && s.pcs.Keys == s.caches.Keys
    requires PcOk(s, g, u)
    ensures u in s'.pcs && PcOk(s', g', u)
  {
    assert SamePc(s, s', u) && SameCache(s, s', u);
    if !s.pcs[u].Idle? {
      var a := s.pcs[u].arena;
      assert s.pcs[u].Uses(a);
      assert a in s.arenas;
      assert Steady(s, g, s', g', t, a);
      OtherUse(s, g, s', g', t, u, a);
    }
  }

  lemma OtherUse(s: State, g: Shape, s': State, g': Shape, t: Thread, u: Thread, a: ArenaId)
    requires Steady(s, g, s', g', t, a) && u != t && u in s.pcs && SamePc(s, s', u) && SameCache(s, s', u)
    requires forall n :: n in g.home ==> KeepsNode(s, g, s', g', t, n)
    requires PcOk(s, g, u) && s.pcs[u].Uses(a)
    ensures PcOk(s', g', u)
  {
    var xs, xs' := g.lists[a], g'.lists[a];
    match s.pcs[u]
    case Searching(_, cur) =>
      PassedFrame(s.heap, s'.heap, xs, cur, u);
    case _ =>
  }

  // ----- every step is mild -----

  lemma MyPc(s: State, g: Shape, t: Thread)
    requires PcsOk(s, g)
    ensures t in s.pcs ==> PcOk(s, g, t)
  {
  }

  ghost predicate Steps(s: State, g: Shape, t: Thread, action: Action, s': State, g': Shape) {
    KeysOk(s, g) && Enabled(s, t, action) && s' == Apply(s, t, action) && g' == NextShape(s, g, t, action)
  }

  /** Steps that touch no arena, no SerialArena and no list. */
  ghost predicate Local(action: Action) {
    match action
    case Spawn => true
    case Exit => true
    case FetchId => true
    case BeginSearch(_) => true
    case SearchOne => true
    case LoadHead => true
    case CacheSerial => true
    case Stamp => true
    case FastCache(_) => true
    case LoadHint(_) => true
    case CheckHint => true
    case Done => true
    case _ => false
  }

  ghost predicate SameMemory(s: State, g: Shape, s': State, g': Shape) {
    s'.arenas == s.arenas && s'.heap == s.heap && g' == g
  }

  lemma LocalStep(s: State, g: Shape, t: Thread, action: Action, s': State, g': Shape)
    requires Steps(s, g, t, action, s', g') && Local(action)
    ensures SameMemory(s, g, s', g') && KeysOk(s, g)
  {
  }

  /** A step of t changes no other thread's counter or cache. */
  ghost predicate OnlyThread(s: State, s': State, t: Thread) {
    && s'.pcs.Keys == s.pcs.Keys + {t} && s'.caches.Keys == s.caches.Keys + {t}
    && forall u :: u in s.pcs && u in s.caches && u != t ==> s'.pcs[u] == s.pcs[u] && s'.caches[u] == s.caches[u]
  }

  lemma LocalThread(s: State, g: Shape, t: Thread, action: Action, s': State, g': Shape)
    requires Steps(s, g, t, action, s', g') && Local(action)
    ensures OnlyThread(s, s', t)
  {
  }

  lemma SharedThread(s: State, g: Shape, t: Thread, action: Action, s': State, g': Shape)
    requires Steps(s, g, t, action, s', g') && !Local(action)
    ensures OnlyThread(s, s', t)
  {
  }

  lemma StepThread(s: State, g: Shape, t: Thread, action: Action, s': State, g': Shape)
    requires Steps(s, g, t, action, s', g')
    ensures OnlyThread(s, s', t) && KeysOk(s, g)
  {
    hide Apply, NextShape, Enabled, OnlyThread;
    if Local(action) {
      LocalThread(s, g, t, action, s', g');
    } else {
      SharedThread(s, g, t, action, s', g');
    }
  }

  lemma OthersSame(s: State, g: Shape, t: Thread, action: Action, s': State, g': Shape, u: Thread)
    requires Steps(s, g, t, action, s', g') && u != t
    ensures SamePc(s, s', u) && (u in s.caches ==> SameCache(s, s', u))
  {
    hide Steps;
    StepThread(s, g, t, action, s', g');
  }

  lemma ListedNodes(s: State, g: Shape, a: ArenaId, x: Addr)
    requires KeysOk(s, g) && ArenasOk(s, g) && a in g.lists && x in g.lists[a]
    ensures x in s.heap && x != 0 && x in g.home && g.home[x] == InList(a)
  {
    LinkedIn(s.heap, Start(s.arenas[a]), g.lists[a], x);
  }

  /** The one node a step may change or free. */
  ghost predicate Changes(s: State, t: Thread, action: Action, n: Addr)
    requires Enabled(s, t, action)
  {
    match action
    case InitialBlock(m) => n == m
    case New(m) => n == m
    case Link => n == s.pcs[t].node
    case FreeOne => n == s.arenas[s.pcs[t].arena].phase.cur
    case _ => false
  }

  lemma HeapKeptShared(s: State, g: Shape, t: Thread, action: Action, s': State, g': Shape, x: Addr)
    requires Steps(s, g, t, action, s', g') && x in s.heap && !Changes(s, t, action, x)
    requires !Local(action)
    ensures x in s'.heap && s'.heap[x] == s.heap[x]
  {
  }

  lemma HeapKept(s: State, g: Shape, t: Thread, action: Action, s': State, g': Shape, x: Addr)
    requires Steps(s, g, t, action, s', g') && x in s.heap && !Changes(s, t, action, x)
    ensures x in s'.heap && s'.heap[x] == s.heap[x]
  {
    hide Steps, Changes;
    if Local(action) {
      LocalStep(s, g, t, action, s', g');
    } else {
      HeapKeptShared(s, g, t, action, s', g', x);
    }
  }

  lemma FreedIsListed(s: State, g: Shape, t: Thread)
    requires KeysOk(s, g) && ArenasOk(s, g) && Enabled(s, t, FreeOne)
    ensures var a := s.pcs[t].arena; var cur := s.arenas[a].phase.cur;
            && a in g.lists && g.lists[a] != [] && g.lists[a][0] == cur && cur in g.home && g.home[cur] == InList(a)
            && cur in s.heap && Linked(s.heap, s.heap[cur].next, g.lists[a][1..])
  {
    var a := s.pcs[t].arena;
    assert ArenaOk(s, g, a);
    ListedNodes(s, g, a, g.lists[a][0]);
  }

  /** What a step changes is in no list, or in the list that t is freeing. */
  lemma ChangedNode(s: State, g: Shape, t: Thread, action: Action, a: ArenaId, x: Addr)
    requires KeysOk(s, g) && ArenasOk(s, g) && PcsOk(s, g) && Enabled(s, t, action)
    requires a in s.arenas && x in g.lists[a] && Changes(s, t, action, x)
    ensures action.FreeOne? && a == s.pcs[t].arena
  {
    ListedNodes(s, g, a, x);
    MyPc(s, g, t);
    if action.FreeOne? {
      FreedIsListed(s, g, t);
    }
  }

  lemma ListsSteady(s: State, g: Shape, t: Thread, action: Action, s': State, g': Shape, a: ArenaId)
    requires Steps(s, g, t, action, s', g') && ArenasOk(s, g) && PcsOk(s, g)
    requires a in s.arenas && a !in Excepted(s, t, action)
    ensures Steady(s, g, s', g', t, a)
  {
    forall x | x in g.lists[a] ensures x in s.heap && x in s'.heap && s'.heap[x] == s.heap[x] {
      ListedNodes(s, g, a, x);
      if Changes(s, t, action, x) {
        ChangedNode(s, g, t, action, a, x);
      }
      HeapKept(s, g, t, action, s', g', x);
    }
    assert SameOn(s.heap, s'.heap, g.lists[a]);
    ListGrows(s, g, t, action, s', g', a);
    SameLife(s, g, t, action, s', g', a);
  }

  lemma ListGrows(s: State, g: Shape, t: Thread, action: Action, s': State, g': Shape, a: ArenaId)
    requires Steps(s, g, t, action, s', g') && ArenasOk(s, g) && PcsOk(s, g)
    requires a in s.arenas && a !in Excepted(s, t, action)
    ensures a in g'.lists && Extends(s'.heap, g.lists[a], g'.lists[a], t)
  {
    if action.InitialBlock? || action.Swap? {
      MyPc(s, g, t);
      assert ArenaOk(s, g, a);
    }
  }

  lemma SameLifeShared(s: State, g: Shape, t: Thread, action: Action, s': State, g': Shape, a: ArenaId)
    requires Steps(s, g, t, action, s', g')
    requires a in s.arenas && a !in Excepted(s, t, action)
    requires !Local(action)
    ensures a in s'.arenas
    ensures s'.arenas[a].tagAndId == s.arenas[a].tagAndId && s'.arenas[a].phase == s.arenas[a].phase
  {
  }

  lemma SameLife(s: State, g: Shape, t: Thread, action: Action, s': State, g': Shape, a: ArenaId)
    requires Steps(s, g, t, action, s', g')
    requires a in s.arenas && a !in Excepted(s, t, action)
    ensures a in s'.arenas
    ensures s'.arenas[a].tagAndId == s.arenas[a].tagAndId && s'.arenas[a].phase == s.arenas[a].phase
  {
    hide Steps, Excepted;
    if Local(action) {
      LocalStep(s, g, t, action, s', g');
    } else {
      SameLifeShared(s, g, t, action, s', g', a);
    }
  }

  lemma NodesKept(s: State, g: Shape, t: Thread, action: Action, s': State, g': Shape, n: Addr)
    requires Steps(s, g, t, action, s', g') && ArenasOk(s, g) && PcsOk(s, g) && n in g.home
    ensures KeepsNode(s, g, s', g', t, n)
  {
    MyPc(s, g, t);
    if g.home[n].Private? && g.home[n].thread != t {
      if action.FreeOne? {
        FreedIsListed(s, g, t);
      }
      assert !Changes(s, t, action, n);
      HeapKept(s, g, t, action, s', g', n);
    }
  }

  lemma ExceptedUnused(s: State, g: Shape, t: Thread, action: Action, u: Thread, a: ArenaId)
    requires ListsOk(s, g) && Enabled(s, t, action) && u != t && u in s.pcs && a in Excepted(s, t, action)
    ensures !s.pcs[u].Uses(a)
  {
    MyPc(s, g, t);
    MyPc(s, g, u);
    assert t in s.pcs ==> Alone(s, u, t);
  }

  lemma StepIsMild(s: State, g: Shape, t: Thread, action: Action, s': State, g': Shape)
    requires Steps(s, g, t, action, s', g') && ListsOk(s, g)
    ensures Mild(s, g, s', g', t, Excepted(s, t, action))
  {
    hide Steps, Apply, NextShape, Excepted, Steady, KeepsNode, SamePc, SameCache;
    StepsEnabled(s, g, t, action, s', g');
    var except := Excepted(s, t, action);
    forall u | u != t ensures SamePc(s, s', u) && (u in s.caches ==> SameCache(s, s', u)) {
      OthersSame(s, g, t, action, s', g', u);
    }
    forall a | a in s.arenas && a !in except ensures Steady(s, g, s', g', t, a) {
      ListsSteady(s, g, t, action, s', g', a);
    }
    forall n | n in g.home ensures KeepsNode(s, g, s', g', t, n) {
      NodesKept(s, g, t, action, s', g', n);
    }
    forall u, a | u != t && u in s.pcs && a in except ensures !s.pcs[u].Uses(a) {
      ExceptedUnused(s, g, t, action, u, a);
    }
  }

  lemma StepsEnabled(s: State, g: Shape, t: Thread, action: Action, s': State, g': Shape)
    requires Steps(s, g, t, action, s', g')
    ensures Enabled(s, t, action)
  {
  }

  // ----- the lists after a step -----

  /** Nothing about the list of this arena changed. */
  lemma SameListOk(s: State, g: Shape, s': State, g': Shape, a: ArenaId)
    requires a in s.arenas && a in g.lists && a in s'.arenas && a in g'.lists && ArenaOk(s, g, a)
    requires g'.lists[a] == g.lists[a] && SameOn(s.heap, s'.heap, g.lists[a])
    requires Start(s'.arenas[a]) == Start(s.arenas[a])
    requires forall x :: x in g.lists[a] ==> x in g'.home && x in g.home && g'.home[x] == g.home[x]
    requires s'.arenas[a].hint == s.arenas[a].hint || s'.arenas[a].hint in g.lists[a]
    requires s'.arenas[a].Identified() ==> s.arenas[a].Identified()
    ensures ArenaOk(s', g', a)
  {
    hide Linked, OnePerOwner;
    LinkedFrame(s.heap, s'.heap, Start(s.arenas[a]), g.lists[a]);
    OneFrame(s.heap, s'.heap, g.lists[a]);
  }

  /** A push by a thread that has no SerialArena in the list. */
  lemma PushOk(s: State, g: Shape, s': State, g': Shape, a: ArenaId, n: Addr, t: Thread)
    requires a in s.arenas && a in g.lists && a in s'.arenas && a in g'.lists && ArenaOk(s, g, a)
    requires g'.lists[a] == [n] + g.lists[a] && SameOn(s.heap, s'.heap, g.lists[a])
    requires s.arenas[a].Identified() && s'.arenas[a] == s.arenas[a].(threads := n)
    requires n != 0 && n in s'.heap && s'.heap[n] == SerialArena(t, s.arenas[a].threads)
    requires NoneOwned(s.heap, g.lists[a], t)
    requires g'.home == g.home[n := InList(a)]
    ensures ArenaOk(s', g', a)
  {
    var xs := g.lists[a];
    LinkedFrame(s.heap, s'.heap, Start(s.arenas[a]), xs);
    OneFrame(s.heap, s'.heap, xs);
    assert g'.lists[a][1..] == xs;
    assert NoneOwned(s'.heap, xs, t) by {
      forall x | x in xs ensures !Owned(s'.heap, x, t) {
        assert !Owned(s.heap, x, t);
      }
    }
  }

  ghost predicate Pushes(s: State, t: Thread, action: Action)
    requires Enabled(s, t, action)
  {
    action.InitialBlock? || (action.Swap? && s.arenas[s.pcs[t].arena].threads == s.pcs[t].expected && !action.spurious)
  }

  lemma PushKeepsList(s: State, g: Shape, t: Thread, action: Action, s': State, g': Shape)
    requires Steps(s, g, t, action, s', g') && ListsOk(s, g) && Pushes(s, t, action)
    ensures var a := s.pcs[t].arena; a in s'.arenas && a in g'.lists && ArenaOk(s', g', a)
  {
    hide Linked, OnePerOwner, CachesOk, AllAlone, HomesOk;
    var a := s.pcs[t].arena;
    MyPc(s, g, t);
    assert ArenaOk(s, g, a);
    forall x | x in g.lists[a] ensures x in s.heap && x in s'.heap && s'.heap[x] == s.heap[x] {
      ListedNodes(s, g, a, x);
    }
    if action.Swap? {
      PushOk(s, g, s', g', a, s.pcs[t].node, t);
    } else {
      EmptyList(s.heap, g.lists[a]);
      PushOk(s, g, s', g', a, action.n, t);
    }
  }

  lemma EmptyList(heap: Heap, xs: seq<Addr>)
    requires Linked(heap, 0, xs)
    ensures xs == []
  {
  }

  lemma OtherListOk(s: State, g: Shape, t: Thread, action: Action, s': State, g': Shape, a: ArenaId)
    requires Steps(s, g, t, action, s', g') && ListsOk(s, g) && a in s.arenas && a !in Excepted(s, t, action)
    requires Pushes(s, t, action) ==> a != s.pcs[t].arena
    ensures a in s'.arenas && a in g'.lists && ArenaOk(s', g', a)
  {
    hide Linked, OnePerOwner, CachesOk, AllAlone, HomesOk;
    ListsSteady(s, g, t, action, s', g', a);
    NotPushed(s, g, t, action, s', g', a);
    forall x | x in g.lists[a] ensures x in g'.home && x in g.home && g'.home[x] == g.home[x] {
      ListedNodes(s, g, a, x);
      if Changes(s, t, action, x) {
        ChangedNode(s, g, t, action, a, x);
      }
      HomeSame(s, g, t, action, s', g', x);
    }
    SameListOk(s, g, s', g', a);
  }

  lemma NotPushedShared(s: State, g: Shape, t: Thread, action: Action, s': State, g': Shape, a: ArenaId)
    requires Steps(s, g, t, action, s', g') && a in s.arenas && a !in Excepted(s, t, action)
    requires PcsOk(s, g) && (Pushes(s, t, action) ==> a != s.pcs[t].arena)
    requires !Local(action)
    ensures a in s'.arenas && a in g'.lists && g'.lists[a] == g.lists[a]
    ensures Start(s'.arenas[a]) == Start(s.arenas[a])
    ensures s'.arenas[a].hint == s.arenas[a].hint || s'.arenas[a].hint in g.lists[a]
  {
    if action.SetHint? {
      MyPc(s, g, t);
    }
  }

  lemma NotPushed(s: State, g: Shape, t: Thread, action: Action, s': State, g': Shape, a: ArenaId)
    requires Steps(s, g, t, action, s', g') && a in s.arenas && a !in Excepted(s, t, action)
    requires PcsOk(s, g) && (Pushes(s, t, action) ==> a != s.pcs[t].arena)
    ensures a in s'.arenas && a in g'.lists && g'.lists[a] == g.lists[a]
    ensures Start(s'.arenas[a]) == Start(s.arenas[a])
    ensures s'.arenas[a].hint == s.arenas[a].hint || s'.arenas[a].hint in g.lists[a]
  {
    hide Steps, Excepted, Pushes;
    if Local(action) {
      LocalStep(s, g, t, action, s', g');
    } else {
      NotPushedShared(s, g, t, action, s', g', a);
    }
  }

  lemma HomeSameShared(s: State, g: Shape, t: Thread, action: Action, s': State, g': Shape, x: Addr)
    requires Steps(s, g, t, action, s', g') && PcsOk(s, g) && x in g.home && g.home[x].InList?
              && !Changes(s, t, action, x)
    requires !Local(action)
    ensures x in g'.home && g'.home[x] == g.home[x]
  {
    if action.Swap? {
      MyPc(s, g, t);
    }
  }

  lemma HomeSame(s: State, g: Shape, t: Thread, action: Action, s': State, g': Shape, x: Addr)
    requires Steps(s, g, t, action, s', g') && PcsOk(s, g) && x in g.home && g.home[x].InList?
              && !Changes(s, t, action, x)
    ensures x in g'.home && g'.home[x] == g.home[x]
  {
    hide Steps, Changes;
    if Local(action) {
      LocalStep(s, g, t, action, s', g');
    } else {
      HomeSameShared(s, g, t, action, s', g', x);
    }
  }

  lemma NoOwners(heap: Heap)
    ensures OnePerOwner(heap, [])
  {
  }

  lemma ExclusiveListOk(s: State, g: Shape, t: Thread, action: Action, s': State, g': Shape, a: ArenaId)
    requires Steps(s, g, t, action, s', g') && ListsOk(s, g)
    requires a in Excepted(s, t, action) && !action.FreeOne? && a in s'.arenas
    ensures a in g'.lists && ArenaOk(s', g', a)
  {
    hide CachesOk, AllAlone, HomesOk, PcOk, OnePerOwner;
    assert a in s.arenas ==> ArenaOk(s, g, a);
    NoOwners(s'.heap);
  }

  lemma FreeOneListOk(s: State, g: Shape, t: Thread, s': State, g': Shape)
    requires Steps(s, g, t, FreeOne, s', g') && ListsOk(s, g)
    ensures var a := s.pcs[t].arena; a in s'.arenas && a in g'.lists && ArenaOk(s', g', a)
  {
    hide CachesOk, AllAlone, HomesOk, Linked, OnePerOwner;
    var a := s.pcs[t].arena;
    var cur := s.arenas[a].phase.cur;
    FreedIsListed(s, g, t);
    var xs := g.lists[a];
    assert ArenaOk(s, g, a);
    TailStays(s.heap, xs, cur);
    forall x | x in xs[1..] ensures x in s.heap && x in s'.heap && s'.heap[x] == s.heap[x] {
      ListedNodes(s, g, a, x);
    }
    LinkedFrame(s.heap, s'.heap, s.heap[cur].next, xs[1..]);
    OneFrame(s.heap, s'.heap, xs[1..]);
  }

  lemma TailStays(heap: Heap, xs: seq<Addr>, cur: Addr)
    requires xs != [] && xs[0] == cur && cur in heap && OnePerOwner(heap, xs)
    ensures cur !in xs[1..] && OnePerOwner(heap, xs[1..])
  {
  }

  lemma ArenasKept(s: State, g: Shape, t: Thread, action: Action, s': State, g': Shape)
    requires Steps(s, g, t, action, s', g') && ListsOk(s, g) && KeysOk(s', g')
    ensures ArenasOk(s', g')
  {
    hide Steps, Apply, NextShape, Excepted, ArenaOk, Pushes;
    StepsEnabled(s, g, t, action, s', g');
    forall a | a in s'.arenas ensures ArenaOk(s', g', a) {
      if a in Excepted(s, t, action) {
        if action.FreeOne? {
          ExceptedFreeOne(s, t, a);
          FreeOneListOk(s, g, t, s', g');
        } else {
          ExclusiveListOk(s, g, t, action, s', g', a);
        }
      } else {
        NewArenaExcepted(s, g, t, action, s', g', a);
        if Pushes(s, t, action) && a == s.pcs[t].arena {
          PushKeepsList(s, g, t, action, s', g');
        } else {
          OtherListOk(s, g, t, action, s', g', a);
        }
      }
    }
  }

  lemma ExceptedFreeOne(s: State, t: Thread, a: ArenaId)
    requires Enabled(s, t, FreeOne) && a in Excepted(s, t, FreeOne)
    ensures t in s.pcs && !s.pcs[t].Idle? && a == s.pcs[t].arena
  {
  }

  lemma NewArenaExceptedShared(s: State, g: Shape, t: Thread, action: Action, s': State, g': Shape, a: ArenaId)
    requires Steps(s, g, t, action, s', g') && a in s'.arenas && a !in Excepted(s, t, action)
    requires !Local(action)
    ensures a in s.arenas && (Pushes(s, t, action) ==> t in s.pcs && !s.pcs[t].Idle?)
  {
  }

  lemma NewArenaExcepted(s: State, g: Shape, t: Thread, action: Action, s': State, g': Shape, a: ArenaId)
    requires Steps(s, g, t, action, s', g') && a in s'.arenas && a !in Excepted(s, t, action)
    ensures a in s.arenas && (Pushes(s, t, action) ==> t in s.pcs && !s.pcs[t].Idle?)
  {
    hide Steps, Excepted;
    if Local(action) {
      LocalStep(s, g, t, action, s', g');
    } else {
      NewArenaExceptedShared(s, g, t, action, s', g', a);
    }
  }

  // ----- nothing is lost -----

  lemma KeysKept(s: State, g: Shape, t: Thread, action: Action, s': State, g': Shape)
    requires Steps(s, g, t, action, s', g') && PcsOk(s, g)
    ensures KeysOk(s', g')
  {
    hide Steps, Apply, NextShape, Enabled;
    ThreadKeysKept(s, g, t, action, s', g');
    ArenaKeysKept(s, g, t, action, s', g');
    NodeKeysKept(s, g, t, action, s', g');
  }

  lemma ThreadKeysKept(s: State, g: Shape, t: Thread, action: Action, s': State, g': Shape)
    requires Steps(s, g, t, action, s', g')
    ensures s'.pcs.Keys == s'.caches.Keys
  {
    hide Steps;
    StepThread(s, g, t, action, s', g');
  }

  lemma ArenaKeysKeptShared(s: State, g: Shape, t: Thread, action: Action, s': State, g': Shape)
    requires Steps(s, g, t, action, s', g')
    requires !Local(action)
    ensures g'.lists.Keys == s'.arenas.Keys
  {
  }

  lemma ArenaKeysKept(s: State, g: Shape, t: Thread, action: Action, s': State, g': Shape)
    requires Steps(s, g, t, action, s', g')
    ensures g'.lists.Keys == s'.arenas.Keys
  {
    hide Apply, NextShape, Enabled;
    if Local(action) {
      LocalStep(s, g, t, action, s', g');
    } else {
      ArenaKeysKeptShared(s, g, t, action, s', g');
    }
  }

  lemma NodeKeysKeptShared(s: State, g: Shape, t: Thread, action: Action, s': State, g': Shape)
    requires Steps(s, g, t, action, s', g') && PcsOk(s, g)
    requires !Local(action)
    ensures g'.home.Keys == s'.heap.Keys && 0 !in s'.heap
  {
    if action.Link? || action.Swap? {
      MyPc(s, g, t);
    }
  }

  lemma NodeKeysKept(s: State, g: Shape, t: Thread, action: Action, s': State, g': Shape)
    requires Steps(s, g, t, action, s', g') && PcsOk(s, g)
    ensures g'.home.Keys == s'.heap.Keys && 0 !in s'.heap
  {
    hide Apply, NextShape, Enabled;
    if Local(action) {
      LocalStep(s, g, t, action, s', g');
    } else {
      NodeKeysKeptShared(s, g, t, action, s', g');
    }
  }

  lemma HomesKept(s: State, g: Shape, t: Thread, action: Action, s': State, g': Shape)
    requires Steps(s, g, t, action, s', g') && ListsOk(s, g) && KeysOk(s', g')
    ensures HomesOk(s', g')
  {
    hide Steps, Apply, NextShape, AtHome, Changes;
    forall n | n in g'.home ensures AtHome(s', g', n) {
      HomeKept(s, g, t, action, s', g', n);
    }
  }

  lemma HomeKept(s: State, g: Shape, t: Thread, action: Action, s': State, g': Shape, n: Addr)
    requires Steps(s, g, t, action, s', g') && ListsOk(s, g) && n in g'.home
    ensures AtHome(s', g', n)
  {
    hide Steps, Apply, NextShape, AtHome, Changes;
    if n !in g.home || g'.home[n] != g.home[n] {
      NewHome(s, g, t, action, s', g', n);
    } else if g.home[n].InList? {
      StaysListed(s, g, t, action, s', g', n);
    } else {
      StaysPrivate(s, g, t, action, s', g', n);
    }
  }

  lemma NewHome(s: State, g: Shape, t: Thread, action: Action, s': State, g': Shape, n: Addr)
    requires Steps(s, g, t, action, s', g') && PcsOk(s, g) && n in g'.home
    requires n !in g.home || g'.home[n] != g.home[n]
    ensures AtHome(s', g', n)
  {
    if action.Swap? {
      MyPc(s, g, t);
    }
  }

  lemma StaysPrivateLocal(s: State, g: Shape, t: Thread, action: Action, s': State, g': Shape, n: Addr)
    requires Steps(s, g, t, action, s', g') && HomesOk(s, g)
    requires n in g.home && n in g'.home && g'.home[n] == g.home[n] && g.home[n].Private?
    requires Local(action)
    ensures AtHome(s', g', n)
  {
    assert AtHome(s, g, n);
  }

  lemma StaysPrivateShared(s: State, g: Shape, t: Thread, action: Action, s': State, g': Shape, n: Addr)
    requires Steps(s, g, t, action, s', g') && HomesOk(s, g)
    requires n in g.home && n in g'.home && g'.home[n] == g.home[n] && g.home[n].Private?
    requires !Local(action)
    ensures AtHome(s', g', n)
  {
    assert AtHome(s, g, n);
  }

  lemma StaysPrivate(s: State, g: Shape, t: Thread, action: Action, s': State, g': Shape, n: Addr)
    requires Steps(s, g, t, action, s', g') && HomesOk(s, g)
    requires n in g.home && n in g'.home && g'.home[n] == g.home[n] && g.home[n].Private?
    ensures AtHome(s', g', n)
  {
    hide Steps, AtHome;
    if Local(action) {
      StaysPrivateLocal(s, g, t, action, s', g', n);
    } else {
      StaysPrivateShared(s, g, t, action, s', g', n);
    }
  }

  lemma StaysListed(s: State, g: Shape, t: Thread, action: Action, s': State, g': Shape, n: Addr)
    requires Steps(s, g, t, action, s', g') && ListsOk(s, g)
    requires n in g.home && n in g'.home && g'.home[n] == g.home[n] && g.home[n].InList?
    ensures AtHome(s', g', n)
  {
    hide Steps, Apply, NextShape, ArenaOk, PcOk, CachesOk, AllAlone;
    var a := g.home[n].arena;
    assert AtHome(s, g, n);
    StepsEnabled(s, g, t, action, s', g');
    if a in Excepted(s, t, action) {
      ListedInExcepted(s, g, t, action, s', g', n, a);
    } else {
      ListGrows(s, g, t, action, s', g', a);
      InExtended(s'.heap, g.lists[a], g'.lists[a], t, n);
    }
  }

  lemma InExtended(heap: Heap, xs: seq<Addr>, xs': seq<Addr>, t: Thread, n: Addr)
    requires Extends(heap, xs, xs', t) && n in xs
    ensures n in xs'
  {
  }

  lemma ListedInExcepted(s: State, g: Shape, t: Thread, action: Action, s': State, g': Shape, n: Addr, a: ArenaId)
    requires Steps(s, g, t, action, s', g') && ArenasOk(s, g) && PcsOk(s, g)
    requires n in g'.home && a in Excepted(s, t, action) && a in g.lists && n in g.lists[a]
    ensures a in g'.lists && n in g'.lists[a]
  {
    if action.FreeOne? {
      FreedIsListed(s, g, t);
    } else if action.EndFree? || action.Publish? {
      MyPc(s, g, t);
      EmptyWhenDone(s, g, a);
    }
  }

  lemma EmptyWhenDone(s: State, g: Shape, a: ArenaId)
    requires KeysOk(s, g) && ArenasOk(s, g) && a in s.arenas && Start(s.arenas[a]) == 0
    ensures g.lists[a] == []
  {
    assert ArenaOk(s, g, a);
  }

  // ----- what a thread knows after its own step -----

  lemma SearchKnows(s: State, g: Shape, t: Thread, action: Action, s': State, g': Shape)
    requires Steps(s, g, t, action, s', g') && ArenasOk(s, g) && PcsOk(s, g)
    requires action.BeginSearch? || action.SearchOne?
    ensures PcOk(s', g', t)
  {
    hide Linked, OnePerOwner, Passed;
    MyPc(s, g, t);
    if action.BeginSearch? {
      assert ArenaOk(s, g, action.a);
      BeginPassed(s.heap, s.arenas[action.a].threads, g.lists[action.a], t);
    } else {
      var Searching(a, cur) := s.pcs[t];
      assert ArenaOk(s, g, a);
      if cur == 0 {
        PassedAll(s.heap, s.arenas[a].threads, g.lists[a], t);
      } else {
        PassedEntry(s.heap, s.arenas[a].threads, g.lists[a], cur, t);
      }
    }
  }

  lemma BeginPassed(heap: Heap, start: Addr, xs: seq<Addr>, t: Thread)
    requires Linked(heap, start, xs)
    ensures Passed(heap, xs, start, t)
  {
  }

  lemma CreationKnows(s: State, g: Shape, t: Thread, action: Action, s': State, g': Shape)
    requires Steps(s, g, t, action, s', g') && ListsOk(s, g)
    requires action.New? || action.LoadHead? || action.Link? || action.Swap?
    ensures PcOk(s', g', t)
  {
    hide Linked, OnePerOwner, Passed, CachesOk, AllAlone, HomesOk, ArenaOk, ArenasOk;
    MyPc(s, g, t);
    forall x | x in g.lists[s.pcs[t].arena] ensures !Owned(s'.heap, x, t) {
      assert !Owned(s.heap, x, t);
      ListedNodes(s, g, s.pcs[t].arena, x);
    }
  }

  /** The fast paths hand out only the thread's own SerialArena of this arena. */
  lemma FastCacheKnows(s: State, g: Shape, t: Thread, a: ArenaId, s': State, g': Shape)
    requires Steps(s, g, t, FastCache(a), s', g') && CachesOk(s, g) && IdsOk(s)
    ensures PcOk(s', g', t)
  {
    hide IdsOk, CachesOk;
    TagIsAnId(s, a);
    ThisCacheOk(s, g, t, a);
  }

  lemma ThisCacheOk(s: State, g: Shape, t: Thread, a: ArenaId)
    requires CachesOk(s, g)
    ensures CacheOk(s, g, t, a)
  {
  }

  lemma HintKnows(s: State, g: Shape, t: Thread, action: Action, s': State, g': Shape)
    requires Steps(s, g, t, action, s', g') && ArenasOk(s, g) && PcsOk(s, g)
    requires action.LoadHint? || action.CheckHint?
    ensures PcOk(s', g', t)
  {
    hide Linked, OnePerOwner, Passed;
    MyPc(s, g, t);
    if action.LoadHint? {
      assert ArenaOk(s, g, action.a);
    } else if s.pcs[t].hint != 0 {
      ListedNodes(s, g, s.pcs[t].arena, s.pcs[t].hint);
    }
  }

  lemma TagIsAnId(s: State, a: ArenaId)
    requires IdsOk(s) && InUse(s, a)
    ensures s.arenas[a].tagAndId != NO_ID
  {
    hide OtherBatch, InBatch, Unshared;
    assert ArenaIdDrawn(s, a);
    DrawnIsEven(s, s.arenas[a].Id());
  }

  lemma InitialKnows(s: State, g: Shape, t: Thread, action: Action, s': State, g': Shape)
    requires Steps(s, g, t, action, s', g') && PcsOk(s, g)
    requires action.InitialBlock? || action.CacheSerial? || action.Stamp? || action.SetHint?
    ensures PcOk(s', g', t)
  {
    MyPc(s, g, t);
  }

  lemma LifeKnows(s: State, g: Shape, t: Thread, action: Action, s': State, g': Shape)
    requires Steps(s, g, t, action, s', g') && PcsOk(s, g) && t in s'.pcs
    requires action.Spawn? || action.Exit? || action.Construct? || action.FetchId? || action.Publish?
             || action.Open? || action.BeginFree? || action.FreeOne? || action.EndFree? || action.Done?
    ensures PcOk(s', g', t)
  {
    MyPc(s, g, t);
  }

  lemma PcsKept(s: State, g: Shape, t: Thread, action: Action, s': State, g': Shape)
    requires Steps(s, g, t, action, s', g') && ListsOk(s, g) && IdsOk(s)
    ensures PcsOk(s', g')
  {
    hide Steps, Apply, NextShape, Excepted, Mild, PcOk, IdsOk;
    StepIsMild(s, g, t, action, s', g');
    forall u | u in s'.pcs ensures PcOk(s', g', u) {
      if u == t {
        if action.BeginSearch? || action.SearchOne? {
          SearchKnows(s, g, t, action, s', g');
        } else if action.New? || action.LoadHead? || action.Link? || action.Swap? {
          CreationKnows(s, g, t, action, s', g');
        } else if action.FastCache? {
          FastCacheKnows(s, g, t, action.a, s', g');
        } else if action.LoadHint? || action.CheckHint? {
          HintKnows(s, g, t, action, s', g');
        } else if action.InitialBlock? || action.CacheSerial? || action.Stamp? || action.SetHint? {
          InitialKnows(s, g, t, action, s', g');
        } else {
          LifeKnows(s, g, t, action, s', g');
        }
      } else {
        StepsEnabled(s, g, t, action, s', g');
        OthersSame(s, g, t, action, s', g', u);
        OtherPc(s, g, s', g', t, Excepted(s, t, action), u);
      }
    }
  }

  // ----- the thread caches -----

  lemma CacheCarries(s: State, g: Shape, s': State, g': Shape, t: Thread, u: Thread, a: ArenaId)
    requires u in s.pcs && SameCache(s, s', u) && !s.pcs[u].Stamping?
    requires a in s.arenas && a in s'.arenas && a in g.lists && a in g'.lists
    requires s'.arenas[a].tagAndId == s.arenas[a].tagAndId && (InUse(s', a) ==> InUse(s, a))
    requires Extends(s'.heap, g.lists[a], g'.lists[a], t) && SameOn(s.heap, s'.heap, g.lists[a])
    requires CacheOk(s, g, u, a)
    ensures CacheOk(s', g', u, a)
  {
  }

  lemma StampedCacheOk(s: State, g: Shape, t: Thread, action: Action, s': State, g': Shape, a: ArenaId)
    requires Steps(s, g, t, action, s', g') && ListsOk(s, g) && IdsOk(s)
    requires action.Stamp? || action.CacheSerial? || action.Spawn? || action.Exit?
    ensures CacheOk(s', g', t, a)
  {
    hide Linked, OnePerOwner, Passed, Drawn, OtherBatch, InBatch, Unshared;
    MyPc(s, g, t);
    if action.Stamp? {
      assert DifferentIds(s, a, s.pcs[t].arena);
    }
  }

  /** A new id is in no cache. */
  lemma PublishedCacheOk(s: State, g: Shape, t: Thread, s': State, g': Shape, u: Thread)
    requires Steps(s, g, t, Publish, s', g') && IdsOk(s)
    ensures CacheOk(s', g', u, s.pcs[t].arena)
  {
    hide Drawn, OtherBatch, InBatch;
    assert Unshared(s, t);
    DrawnIsEven(s, s.pcs[t].id);
    if u in s.caches {
      assert !Remembers(s.caches[u], s.pcs[t].id);
    }
  }

  lemma SpareCacheOk(s: State, g: Shape, t: Thread, action: Action, s': State, g': Shape, u: Thread, a: ArenaId)
    requires Steps(s, g, t, action, s', g') && a in Excepted(s, t, action)
    requires action.Construct? || action.BeginFree? || action.FreeOne? || action.EndFree?
    ensures CacheOk(s', g', u, a)
  {
  }

  lemma OpenedCacheOk(s: State, g: Shape, t: Thread, s': State, g': Shape, u: Thread)
    requires Steps(s, g, t, Open, s', g') && CachesOk(s, g)
    ensures CacheOk(s', g', u, s.pcs[t].arena)
  {
    assert CacheOk(s, g, u, s.pcs[t].arena);
  }

  lemma OwnCacheSame(s: State, g: Shape, t: Thread, action: Action, s': State, g': Shape)
    requires Steps(s, g, t, action, s', g')
    requires !action.Stamp? && !action.CacheSerial? && !action.Spawn? && !action.Exit?
    ensures SameCache(s, s', t) && t in s.pcs && t in s'.pcs && !s.pcs[t].Stamping?
  {
  }

  lemma StampingStays(s: State, g: Shape, t: Thread, action: Action, s': State, g': Shape, u: Thread)
    requires Steps(s, g, t, action, s', g') && u != t && u in s'.pcs
    ensures u in s.pcs && s'.pcs[u] == s.pcs[u] && u in s.caches
  {
    hide Steps;
    StepThread(s, g, t, action, s', g');
  }

  lemma CacheKept(s: State, g: Shape, t: Thread, action: Action, s': State, g': Shape, u: Thread, a: ArenaId)
    requires Steps(s, g, t, action, s', g') && ListsOk(s, g) && IdsOk(s) && u in s'.pcs && a in s'.arenas
    ensures CacheOk(s', g', u, a)
  {
    hide Steps, Apply, NextShape, Excepted, Mild, PcOk, IdsOk;
    StepsEnabled(s, g, t, action, s', g');
    if u == t && (action.Stamp? || action.CacheSerial? || action.Spawn? || action.Exit?) {
      StampedCacheOk(s, g, t, action, s', g', a);
    } else if a in Excepted(s, t, action) {
      ExceptedCacheKept(s, g, t, action, s', g', u, a);
    } else {
      NewArenaExcepted(s, g, t, action, s', g', a);
      ListsSteady(s, g, t, action, s', g', a);
      if u == t {
        OwnCacheSame(s, g, t, action, s', g');
      } else {
        StampingStays(s, g, t, action, s', g', u);
        OthersSame(s, g, t, action, s', g', u);
      }
      if s.pcs[u].Stamping? {
      } else {
        assert CacheOk(s, g, u, a);
        CacheCarries(s, g, s', g', t, u, a);
      }
    }
  }

  lemma ExceptedCacheKept(s: State, g: Shape, t: Thread, action: Action, s': State, g': Shape, u: Thread, a: ArenaId)
    requires Steps(s, g, t, action, s', g') && ListsOk(s, g) && IdsOk(s) && a in Excepted(s, t, action)
    ensures CacheOk(s', g', u, a)
  {
    hide Steps, Apply, NextShape, Mild, PcOk, IdsOk, Enabled;
    StepsEnabled(s, g, t, action, s', g');
    match action
    case Publish => PublishedCacheOk(s, g, t, s', g', u);
    case Open => OpenedCacheOk(s, g, t, s', g', u);
    case _ => SpareCacheOk(s, g, t, action, s', g', u, a);
  }

  lemma CachesKept(s: State, g: Shape, t: Thread, action: Action, s': State, g': Shape)
    requires Steps(s, g, t, action, s', g') && ListsOk(s, g) && IdsOk(s)
    ensures CachesOk(s', g')
  {
    hide Steps, Apply, NextShape, IdsOk, Matches;
    forall u, a ensures CacheOk(s', g', u, a) {
      MatchesInUse(s', u, a);
      if u in s'.pcs && a in s'.arenas {
        CacheKept(s, g, t, action, s', g', u, a);
      }
    }
  }

  lemma MatchesInUse(s: State, u: Thread, a: ArenaId)
    ensures Matches(s, u, a) ==> a in s.arenas
  {
  }

  // ----- exclusive use -----

  /** Two other threads go on sharing a live arena. */
  lemma OthersAlone(s: State, g: Shape, s': State, g': Shape, t: Thread, except: set<ArenaId>, u: Thread, v: Thread)
    requires Mild(s, g, s', g', t, except) && u != t && v != t && u in s'.pcs && v in s'.pcs
    requires AllAlone(s)
    ensures Alone(s', u, v)
  {
    assert SamePc(s, s', u) && SamePc(s, s', v);
    assert Alone(s, u, v);
    if u != v && !s.pcs[u].Idle? && s.pcs[v].Uses(s.pcs[u].arena) {
      assert Steady(s, g, s', g', t, s.pcs[u].arena);
    }
  }

  /** A thread starts to use an arena when it is live, or when nobody else uses it. */
  lemma OwnAlone(s: State, g: Shape, t: Thread, action: Action, s': State, g': Shape, v: Thread)
    requires Steps(s, g, t, action, s', g') && ListsOk(s, g) && t in s'.pcs && v in s'.pcs && v != t
    ensures Alone(s', t, v) && Alone(s', v, t)
  {
    hide Steps, Apply, NextShape, Enabled, ListsOk, PcOk;
    StampingStays(s, g, t, action, s', g', v);
    UsedBefore(s, g, t, action, v);
    UsesAfter(s, g, t, action, s', g', v);
  }

  lemma UsedBefore(s: State, g: Shape, t: Thread, action: Action, v: Thread)
    requires ListsOk(s, g) && v in s.pcs && v != t
    ensures t in s.pcs ==> Alone(s, t, v) && Alone(s, v, t) && PcOk(s, g, t)
    ensures !s.pcs[v].Idle? ==> s.pcs[v].arena in s.arenas
  {
    MyPc(s, g, t);
    MyPc(s, g, v);
  }

  lemma UsesAfterLocal(s: State, g: Shape, t: Thread, action: Action, s': State, g': Shape, v: Thread)
    requires Steps(s, g, t, action, s', g') && t in s'.pcs && v in s'.pcs && v != t
    requires v in s.pcs && s'.pcs[v] == s.pcs[v]
    requires t in s.pcs ==> Alone(s, t, v) && Alone(s, v, t) && PcOk(s, g, t)
    requires !s.pcs[v].Idle? ==> s.pcs[v].arena in s.arenas
    requires Local(action)
    ensures Alone(s', t, v) && Alone(s', v, t)
  {
  }

  lemma UsesAfterShared(s: State, g: Shape, t: Thread, action: Action, s': State, g': Shape, v: Thread)
    requires Steps(s, g, t, action, s', g') && t in s'.pcs && v in s'.pcs && v != t
    requires v in s.pcs && s'.pcs[v] == s.pcs[v]
    requires t in s.pcs ==> Alone(s, t, v) && Alone(s, v, t) && PcOk(s, g, t)
    requires !s.pcs[v].Idle? ==> s.pcs[v].arena in s.arenas
    requires !Local(action)
    ensures Alone(s', t, v) && Alone(s', v, t)
  {
  }

  lemma UsesAfter(s: State, g: Shape, t: Thread, action: Action, s': State, g': Shape, v: Thread)
    requires Steps(s, g, t, action, s', g') && t in s'.pcs && v in s'.pcs && v != t
    requires v in s.pcs && s'.pcs[v] == s.pcs[v]
    requires t in s.pcs ==> Alone(s, t, v) && Alone(s, v, t) && PcOk(s, g, t)
    requires !s.pcs[v].Idle? ==> s.pcs[v].arena in s.arenas
    ensures Alone(s', t, v) && Alone(s', v, t)
  {
    hide Steps, Alone, PcOk;
    if Local(action) {
      UsesAfterLocal(s, g, t, action, s', g', v);
    } else {
      UsesAfterShared(s, g, t, action, s', g', v);
    }
  }

  lemma AloneKept(s: State, g: Shape, t: Thread, action: Action, s': State, g': Shape, u: Thread, v: Thread)
    requires Steps(s, g, t, action, s', g') && ListsOk(s, g) && u in s'.pcs && v in s'.pcs
    ensures Alone(s', u, v)
  {
    hide Steps, Apply, NextShape, Excepted, Mild, PcsOk, CachesOk, ArenasOk, HomesOk, AllAlone;
    if u == v {
    } else if u == t {
      OwnAlone(s, g, t, action, s', g', v);
    } else if v == t {
      OwnAlone(s, g, t, action, s', g', u);
    } else {
      StepIsMild(s, g, t, action, s', g');
      StepsEnabled(s, g, t, action, s', g');
      OthersAlone(s, g, s', g', t, Excepted(s, t, action), u, v);
    }
  }

  /** Every step of every thread keeps the invariant. */
  lemma ListsKept(s: State, g: Shape, t: Thread, action: Action)
    requires ListsOk(s, g) && IdsOk(s) && Enabled(s, t, action)
    ensures ListsOk(Apply(s, t, action), NextShape(s, g, t, action))
  {
    hide Apply, NextShape, KeysOk, ArenasOk, HomesOk, PcsOk, CachesOk, AllAlone, IdsOk, Alone;
    var s', g' := Apply(s, t, action), NextShape(s, g, t, action);
    KeysKept(s, g, t, action, s', g');
    ArenasKept(s, g, t, action, s', g');
    HomesKept(s, g, t, action, s', g');
    PcsKept(s, g, t, action, s', g');
    CachesKept(s, g, t, action, s', g');
    forall u, v | u in s'.pcs && v in s'.pcs ensures Alone(s', u, v) {
      AloneKept(s, g, t, action, s', g', u, v);
    }
    AllAloneIf(s');
  }

  lemma AllAloneIf(s: State)
    requires forall u, v :: u in s.pcs && v in s.pcs ==> Alone(s, u, v)
    ensures AllAlone(s)
  {
  }
}
