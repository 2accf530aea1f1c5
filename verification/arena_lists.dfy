/** The lists of SerialArenas, and what each thread knows about them at each of its steps. */
module ArenaLists {
  import opened ArenaProtocol

  /** Where a SerialArena is: in the list of an arena, or still private to its creator. */
  datatype Home = InList(arena: ArenaId) | Private(thread: Thread)

  /** The list of every arena, newest first, and the home of every allocated SerialArena. */
  datatype Shape = Shape(lists: map<ArenaId, seq<Addr>>, home: map<Addr, Home>)

  type Heap = map<Addr, SerialArena>

  function First(xs: seq<Addr>): Addr {
    if xs == [] then 0 else xs[0]
  }

  /** Following `next` from `start` visits exactly xs and ends at null. */
  ghost predicate Linked(heap: Heap, start: Addr, xs: seq<Addr>)
    decreases |xs|
  {
    if xs == [] then start == 0
    else start != 0 && start == xs[0] && start in heap && Linked(heap, heap[start].next, xs[1..])
  }

  ghost predicate Owned(heap: Heap, x: Addr, t: Thread) {
    x in heap && heap[x].owner == t
  }

  ghost predicate NoneOwned(heap: Heap, xs: seq<Addr>, t: Thread) {
    forall x :: x in xs ==> !Owned(heap, x, t)
  }

  /** At most one SerialArena per thread. */
  ghost predicate OnePerOwner(heap: Heap, xs: seq<Addr>) {
    xs != [] ==> xs[0] in heap && NoneOwned(heap, xs[1..], heap[xs[0]].owner) && OnePerOwner(heap, xs[1..])
  }

  /** A search for t that has come to `cur` has passed only SerialArenas of other threads. */
  ghost predicate Passed(heap: Heap, xs: seq<Addr>, cur: Addr, t: Thread) {
    cur == First(xs) || (xs != [] && !Owned(heap, xs[0], t) && Passed(heap, xs[1..], cur, t))
  }

  /** What GetSerialArenaFallback's loop finds: the first SerialArena of thread t, or null. */
  function Search(heap: Heap, xs: seq<Addr>, t: Thread): Addr {
    if xs == [] then 0
    else if xs[0] in heap && heap[xs[0]].owner == t then xs[0]
    else Search(heap, xs[1..], t)
  }

  // ----- lists -----

  ghost predicate SameOn(heap: Heap, heap': Heap, xs: seq<Addr>) {
    forall x :: x in xs ==> x in heap && x in heap' && heap'[x] == heap[x]
  }

  lemma {:induction false} LinkedFrame(heap: Heap, heap': Heap, start: Addr, xs: seq<Addr>)
    requires Linked(heap, start, xs) && SameOn(heap, heap', xs)
    ensures Linked(heap', start, xs)
    decreases |xs|
  {
    if xs != [] {
      LinkedFrame(heap, heap', heap[start].next, xs[1..]);
    }
  }

  lemma {:induction false} OneFrame(heap: Heap, heap': Heap, xs: seq<Addr>)
    requires OnePerOwner(heap, xs) && SameOn(heap, heap', xs)
    ensures OnePerOwner(heap', xs)
  {
    if xs != [] {
      OneFrame(heap, heap', xs[1..]);
    }
  }

  lemma {:induction false} PassedFrame(heap: Heap, heap': Heap, xs: seq<Addr>, cur: Addr, t: Thread)
    requires Passed(heap, xs, cur, t) && SameOn(heap, heap', xs)
    ensures Passed(heap', xs, cur, t)
  {
    if cur != First(xs) {
      PassedFrame(heap, heap', xs[1..], cur, t);
    }
  }

  lemma {:induction false} LinkedIn(heap: Heap, start: Addr, xs: seq<Addr>, x: Addr)
    requires Linked(heap, start, xs) && x in xs
    ensures x in heap && x != 0
    decreases |xs|
  {
    if x != xs[0] {
      LinkedIn(heap, heap[start].next, xs[1..], x);
    }
  }

  lemma LinkedFirst(heap: Heap, start: Addr, xs: seq<Addr>)
    requires Linked(heap, start, xs)
    ensures start == First(xs)
  {
  }

  lemma {:induction false} PassedEntry(heap: Heap, start: Addr, xs: seq<Addr>, cur: Addr, t: Thread)
    requires Linked(heap, start, xs) && Passed(heap, xs, cur, t) && cur != 0
    ensures cur in xs && cur in heap
    ensures !Owned(heap, cur, t) ==> Passed(heap, xs, heap[cur].next, t)
    decreases |xs|
  {
    if cur == First(xs) {
      LinkedFirst(heap, heap[start].next, xs[1..]);
    } else {
      PassedEntry(heap, heap[start].next, xs[1..], cur, t);
    }
  }

  lemma {:induction false} PassedAll(heap: Heap, start: Addr, xs: seq<Addr>, t: Thread)
    requires Linked(heap, start, xs) && Passed(heap, xs, 0, t)
    ensures NoneOwned(heap, xs, t)
    decreases |xs|
  {
    if xs != [] {
      PassedAll(heap, heap[start].next, xs[1..], t);
    }
  }

  /** The search finds the one SerialArena of the thread. */
  lemma {:induction false} SearchFinds(heap: Heap, start: Addr, xs: seq<Addr>, t: Thread, x: Addr)
    requires Linked(heap, start, xs) && OnePerOwner(heap, xs) && x in xs && Owned(heap, x, t)
    ensures Search(heap, xs, t) == x
    decreases |xs|
  {
    if x != xs[0] {
      SearchFinds(heap, heap[start].next, xs[1..], t, x);
      assert x in xs[1..];
    } else if !Owned(heap, xs[0], t) {
      assert false;
    }
  }

  // ----- the invariant -----

  function Start(arena: Arena): Addr {
    match arena.phase
    case Blank => 0
    case Freeing(cur) => cur
    case Fresh => arena.threads
    case Live => arena.threads
  }

  ghost predicate AllAtHome(g: Shape, a: ArenaId, xs: seq<Addr>) {
    forall x :: x in xs ==> x in g.home && g.home[x] == InList(a)
  }

  ghost predicate ArenaOk(s: State, g: Shape, a: ArenaId)
    requires a in s.arenas && a in g.lists
  {
    var arena, xs := s.arenas[a], g.lists[a];
    && Linked(s.heap, Start(arena), xs)
    && OnePerOwner(s.heap, xs)
    && AllAtHome(g, a, xs)
    && (arena.Identified() && arena.hint != 0 ==> arena.hint in xs)
  }

  /** Nothing published is lost: each SerialArena is in a list or in its creator's hands. */
  ghost predicate AtHome(s: State, g: Shape, n: Addr)
    requires n in g.home
  {
    match g.home[n]
    case InList(a) => a in g.lists && n in g.lists[a]
    case Private(t) => t in s.pcs && s.pcs[t].HasNode(n)
  }

  ghost predicate Mine(s: State, g: Shape, t: Thread, a: ArenaId, x: Addr) {
    a in g.lists && x in g.lists[a] && Owned(s.heap, x, t)
  }

  ghost predicate NotYetIn(s: State, g: Shape, t: Thread, a: ArenaId) {
    IsLive(s, a) && a in g.lists && NoneOwned(s.heap, g.lists[a], t)
  }

  ghost predicate PrivateTo(s: State, g: Shape, t: Thread, n: Addr) {
    n != 0 && Owned(s.heap, n, t) && n in g.home && g.home[n] == Private(t)
  }

  ghost predicate InUse(s: State, a: ArenaId) {
    a in s.arenas && s.arenas[a].Identified()
  }

  ghost predicate NotLive(s: State, a: ArenaId) {
    a in s.arenas && !s.arenas[a].phase.Live?
  }

  /** What thread t knows when it is at its program counter. */
  ghost predicate PcOk(s: State, g: Shape, t: Thread)
    requires t in s.pcs
  {
    match s.pcs[t]
    case Idle => true
    case Exclusive(a) => NotLive(s, a)
    case HasId(a, _) => a in s.arenas && s.arenas[a].phase.Blank?
    case Searching(a, cur) => IsLive(s, a) && a in g.lists && Passed(s.heap, g.lists[a], cur, t)
    case Allocating(a) => NotYetIn(s, g, t, a)
    case LoadingHead(a, n) => NotYetIn(s, g, t, a) && PrivateTo(s, g, t, n)
    case Linking(a, n, _) => NotYetIn(s, g, t, a) && PrivateTo(s, g, t, n)
    case Swapping(a, n, expected) =>
      NotYetIn(s, g, t, a) && PrivateTo(s, g, t, n) && s.heap[n].next == expected
    case Caching(a, x) => InUse(s, a) && Mine(s, g, t, a, x)
    case Stamping(a, x) => InUse(s, a) && Mine(s, g, t, a, x) && t in s.caches && s.caches[t].lastSerial == x
    case Hinting(a, x) => InUse(s, a) && Mine(s, g, t, a, x)
    case HintLoaded(a, h) => IsLive(s, a) && a in g.lists && (h != 0 ==> h in g.lists[a])
    case Got(a, x) => IsLive(s, a) && Mine(s, g, t, a, x)
  }

  ghost predicate Matches(s: State, t: Thread, a: ArenaId) {
    && t in s.caches && s.caches[t].lastId != NO_ID
    && InUse(s, a) && s.arenas[a].tagAndId == s.caches[t].lastId
  }

  /** A cache that matches an arena in use holds this thread's SerialArena of that arena. */
  ghost predicate CacheOk(s: State, g: Shape, t: Thread, a: ArenaId) {
    t in s.pcs && !s.pcs[t].Stamping? && Matches(s, t, a) ==> Mine(s, g, t, a, s.caches[t].lastSerial)
  }

  /** An arena that is not live is used by one thread. */
  ghost predicate Alone(s: State, t: Thread, u: Thread)
    requires t in s.pcs && u in s.pcs
  {
    t != u && !s.pcs[t].Idle? && s.pcs[u].Uses(s.pcs[t].arena) ==> IsLive(s, s.pcs[t].arena)
  }

  ghost predicate KeysOk(s: State, g: Shape) {
    s.pcs.Keys == s.caches.Keys && g.lists.Keys == s.arenas.Keys && g.home.Keys == s.heap.Keys && 0 !in s.heap
  }

  ghost predicate ArenasOk(s: State, g: Shape)
    requires KeysOk(s, g)
  {
    forall a :: a in s.arenas ==> ArenaOk(s, g, a)
  }

  ghost predicate HomesOk(s: State, g: Shape)
    requires KeysOk(s, g)
  {
    forall n :: n in g.home ==> AtHome(s, g, n)
  }

  ghost predicate PcsOk(s: State, g: Shape) {
    forall t :: t in s.pcs ==> PcOk(s, g, t)
  }

  ghost predicate CachesOk(s: State, g: Shape) {
    forall t, a :: CacheOk(s, g, t, a)
  }

  ghost predicate AllAlone(s: State) {
    forall t, u :: t in s.pcs && u in s.pcs ==> Alone(s, t, u)
  }

  ghost predicate ListsOk(s: State, g: Shape) {
    KeysOk(s, g) && ArenasOk(s, g) && HomesOk(s, g) && PcsOk(s, g) && CachesOk(s, g) && AllAlone(s)
  }

  // ----- how a step changes the lists -----

  /** The lists after a step; they are not part of the program's state. */
  ghost function NextShape(s: State, g: Shape, t: Thread, action: Action): Shape
    requires Enabled(s, t, action) && KeysOk(s, g)
  {
    match action
    case Construct(a, _) => g.(lists := g.lists[a := []])
    case Publish => g.(lists := g.lists[s.pcs[t].arena := []])
    case InitialBlock(n) => g.(lists := g.lists[s.pcs[t].arena := [n]], home := g.home[n := InList(s.pcs[t].arena)])
    case FreeOne =>
      var a := s.pcs[t].arena;
      g.(lists := g.lists[a := if g.lists[a] == [] then [] else g.lists[a][1..]],
         home := g.home - {s.arenas[a].phase.cur})
    case EndFree(destroy) =>
      if destroy then g.(lists := g.lists - {s.pcs[t].arena}) else g
    case New(n) => g.(home := g.home[n := Private(t)])
    case Swap(spurious) =>
      var Swapping(a, n, expected) := s.pcs[t];
      if s.arenas[a].threads == expected && !spurious
      then g.(lists := g.lists[a := [n] + g.lists[a]], home := g.home[n := InList(a)])
      else g
    case _ => g
  }
}
