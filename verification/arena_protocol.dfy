/** How threads share arenas: lifecycle ids, the thread-local cache, the hint, and the
    lock-free list of SerialArenas.

    Every step below is one access to shared memory; steps of different threads interleave
    freely under sequential consistency. The only rule imposed on callers is the documented
    one: an arena is not freed or reset while another thread uses it. Addresses of freed
    SerialArenas, of destroyed arenas and of finished threads' caches may be handed out again. */
module ArenaProtocol {
  type Thread = nat   // the address of the thread's ThreadCache
  type ArenaId = nat  // the address of a ThreadSafeArena
  type Addr = nat     // the address of a SerialArena, 0 for null

  const NO_ID: nat := 0xFFFF_FFFF_FFFF_FFFF

  datatype ThreadCache = ThreadCache(nextId: nat, lastId: nat, lastSerial: Addr)

  const NEW_CACHE := ThreadCache(0, NO_ID, 0)

  datatype SerialArena = SerialArena(owner: Thread, next: Addr)

  /** Blank: without an id (being constructed, or freed and about to be initialised again).
      Freeing: the list from `cur` on is still to be freed. Fresh: initialised, not yet in use. */
  datatype Phase = Blank | Freeing(cur: Addr) | Fresh | Live

  datatype Arena = Arena(tagAndId: nat, threads: Addr, hint: Addr, phase: Phase)
  {
    ghost predicate Identified() { phase.Live? || phase.Fresh? }
    function Id(): nat { tagAndId - tagAndId % 2 }
  }

  /** What a thread is doing. */
  datatype Pc =
    | Idle
    | Exclusive(arena: ArenaId)
    | HasId(arena: ArenaId, id: nat)
    | Searching(arena: ArenaId, cur: Addr)
    | Allocating(arena: ArenaId)
    | LoadingHead(arena: ArenaId, node: Addr)
    | Linking(arena: ArenaId, node: Addr, expected: Addr)
    | Swapping(arena: ArenaId, node: Addr, expected: Addr)
    | Caching(arena: ArenaId, serial: Addr)
    | Stamping(arena: ArenaId, serial: Addr)
    | Hinting(arena: ArenaId, serial: Addr)
    | HintLoaded(arena: ArenaId, hint: Addr)
    | Got(arena: ArenaId, serial: Addr)
  {
    ghost predicate Uses(a: ArenaId) { !Idle? && arena == a }
    ghost predicate HasNode(n: Addr) { (LoadingHead? || Linking? || Swapping?) && node == n }
  }

  datatype State = State(generator: nat, caches: map<Thread, ThreadCache>, pcs: map<Thread, Pc>,
                         arenas: map<ArenaId, Arena>, heap: map<Addr, SerialArena>)
  {
    /** A read through a pointer. What it yields after the memory was freed is of no meaning. */
    function Read(p: Addr): SerialArena {
      if p in heap then heap[p] else SerialArena(0, 0)
    }

    ghost predicate At(t: Thread) { t in pcs && t in caches }
  }

  const START := State(0, map[], map[], map[], map[])

  /** One atomic action of a thread. */
  datatype Action =
    | Spawn
    | Exit
    | Construct(a: ArenaId, messageOwned: bool)
    | FetchId
    | Publish
    | InitialBlock(n: Addr)
    | Open
    | BeginFree(a: ArenaId)
    | FreeOne
    | EndFree(destroy: bool)
    | BeginSearch(a: ArenaId)
    | SearchOne
    | New(n: Addr)
    | LoadHead
    | Link
    | Swap(spurious: bool)
    | CacheSerial
    | Stamp
    | SetHint
    | FastCache(a: ArenaId)
    | LoadHint(a: ArenaId)
    | CheckHint
    | Done

  ghost predicate IsLive(s: State, a: ArenaId) {
    a in s.arenas && s.arenas[a].phase.Live?
  }

  /** The thread has the arena for itself, in this phase. */
  ghost predicate Owns(s: State, t: Thread, phase: Phase) {
    s.At(t) && s.pcs[t].Exclusive? && s.pcs[t].arena in s.arenas && s.arenas[s.pcs[t].arena].phase == phase
  }

  ghost predicate IdleAt(s: State, t: Thread, a: ArenaId) {
    s.At(t) && s.pcs[t].Idle? && IsLive(s, a)
  }

  /** When thread t can take an action. */
  ghost predicate Enabled(s: State, t: Thread, action: Action) {
    match action
    case Spawn => t !in s.pcs
    case Exit => s.At(t) && s.pcs[t].Idle?
    case Construct(a, _) => s.At(t) && s.pcs[t].Idle? && a !in s.arenas
    case FetchId => Owns(s, t, Blank) && (s.generator + 1) * 512 < NO_ID  // before the ids wrap around
    case Publish => s.At(t) && s.pcs[t].HasId? && s.pcs[t].arena in s.arenas
    case InitialBlock(n) => Owns(s, t, Fresh) && s.arenas[s.pcs[t].arena].threads == 0 && n != 0 && n !in s.heap
    case Open => Owns(s, t, Fresh)
    case BeginFree(a) => IdleAt(s, t, a) && forall u :: u in s.pcs ==> !s.pcs[u].Uses(a)
    case FreeOne => s.At(t) && s.pcs[t].Exclusive? && s.pcs[t].arena in s.arenas
                    && s.arenas[s.pcs[t].arena].phase.Freeing? && s.arenas[s.pcs[t].arena].phase.cur != 0
    case EndFree(_) => Owns(s, t, Freeing(0))
    case BeginSearch(a) => IdleAt(s, t, a)
    case SearchOne => s.At(t) && s.pcs[t].Searching?
    case New(n) => s.At(t) && s.pcs[t].Allocating? && n != 0 && n !in s.heap
    case LoadHead => s.At(t) && s.pcs[t].LoadingHead? && s.pcs[t].arena in s.arenas
    case Link => s.At(t) && s.pcs[t].Linking?
    case Swap(_) => s.At(t) && s.pcs[t].Swapping? && s.pcs[t].arena in s.arenas
    case CacheSerial => s.At(t) && s.pcs[t].Caching?
    case Stamp => s.At(t) && s.pcs[t].Stamping? && s.pcs[t].arena in s.arenas
    case SetHint => s.At(t) && s.pcs[t].Hinting? && s.pcs[t].arena in s.arenas
    case FastCache(a) => IdleAt(s, t, a) && s.caches[t].lastId == s.arenas[a].tagAndId
    case LoadHint(a) => IdleAt(s, t, a)
    case CheckHint => s.At(t) && s.pcs[t].HintLoaded?
    case Done => s.At(t) && s.pcs[t].Got?
  }

  // ----- the effect of a step -----

  ghost function Goto(s: State, t: Thread, pc: Pc): State {
    s.(pcs := s.pcs[t := pc])
  }

  /** The id Init draws: the next of the thread's batch, or the first of a new batch of
      kPerThreadIds * kDelta = 512. */
  function DrawnId(s: State, c: ThreadCache): nat {
    if c.nextId % 512 == 0 then s.generator * 512 else c.nextId
  }

  ghost function Apply(s: State, t: Thread, action: Action): State
    requires Enabled(s, t, action)
  {
    match action
    case Spawn => Goto(s.(caches := s.caches[t := NEW_CACHE]), t, Idle)
    case Exit => s.(caches := s.caches[t := NEW_CACHE])
    case Construct(a, messageOwned) =>
      Goto(s.(arenas := s.arenas[a := Arena(if messageOwned then 1 else 0, 0, 0, Blank)]), t, Exclusive(a))
    case FetchId =>
      var c := s.caches[t];
      var id := DrawnId(s, c);
      Goto(s.(generator := if c.nextId % 512 == 0 then s.generator + 1 else s.generator,
              caches := s.caches[t := c.(nextId := id + 2)]),
           t, HasId(s.pcs[t].arena, id))
    case Publish =>
      var a := s.pcs[t].arena;
      Goto(s.(arenas := s.arenas[a := Arena(s.pcs[t].id + s.arenas[a].tagAndId % 2, 0, 0, Fresh)]), t, Exclusive(a))
    case InitialBlock(n) =>
      var a := s.pcs[t].arena;
      Goto(s.(heap := s.heap[n := SerialArena(t, 0)], arenas := s.arenas[a := s.arenas[a].(threads := n)]),
           t, Caching(a, n))
    case Open =>
      var a := s.pcs[t].arena;
      Goto(s.(arenas := s.arenas[a := s.arenas[a].(phase := Live)]), t, Idle)
    case BeginFree(a) =>
      Goto(s.(arenas := s.arenas[a := s.arenas[a].(phase := Freeing(s.arenas[a].threads))]), t, Exclusive(a))
    case FreeOne =>
      var a := s.pcs[t].arena;
      var cur := s.arenas[a].phase.cur;
      s.(arenas := s.arenas[a := s.arenas[a].(phase := Freeing(s.Read(cur).next))], heap := s.heap - {cur})
    case EndFree(destroy) =>
      var a := s.pcs[t].arena;
      if destroy then Goto(s.(arenas := s.arenas - {a}), t, Idle)
      else s.(arenas := s.arenas[a := s.arenas[a].(phase := Blank)])
    case BeginSearch(a) => Goto(s, t, Searching(a, s.arenas[a].threads))
    case SearchOne =>
      var Searching(a, cur) := s.pcs[t];
      Goto(s, t, if cur == 0 then Allocating(a)
                 else if s.Read(cur).owner == t then Caching(a, cur)
                 else Searching(a, s.Read(cur).next))
    case New(n) => Goto(s.(heap := s.heap[n := SerialArena(t, 0)]), t, LoadingHead(s.pcs[t].arena, n))
    case LoadHead =>
      var LoadingHead(a, n) := s.pcs[t];
      Goto(s, t, Linking(a, n, s.arenas[a].threads))
    case Link =>
      var Linking(a, n, head) := s.pcs[t];
      Goto(s.(heap := s.heap[n := s.Read(n).(next := head)]), t, Swapping(a, n, head))
    case Swap(spurious) =>
      var Swapping(a, n, head) := s.pcs[t];
      if s.arenas[a].threads == head && !spurious
      then Goto(s.(arenas := s.arenas[a := s.arenas[a].(threads := n)]), t, Caching(a, n))
      else Goto(s, t, Linking(a, n, s.arenas[a].threads))
    case CacheSerial =>
      var Caching(a, x) := s.pcs[t];
      Goto(s.(caches := s.caches[t := s.caches[t].(lastSerial := x)]), t, Stamping(a, x))
    case Stamp =>
      var Stamping(a, x) := s.pcs[t];
      Goto(s.(caches := s.caches[t := s.caches[t].(lastId := s.arenas[a].tagAndId)]), t, Hinting(a, x))
    case SetHint =>
      var Hinting(a, x) := s.pcs[t];
      Goto(s.(arenas := s.arenas[a := s.arenas[a].(hint := x)]), t,
           if s.arenas[a].phase.Fresh? then Exclusive(a) else Got(a, x))
    case FastCache(a) => Goto(s, t, Got(a, s.caches[t].lastSerial))
    case LoadHint(a) => Goto(s, t, HintLoaded(a, s.arenas[a].hint))
    case CheckHint =>
      var HintLoaded(a, h) := s.pcs[t];
      Goto(s, t, if h != 0 && s.Read(h).owner == t then Got(a, h) else Idle)
    case Done => Goto(s, t, Idle)
  }
}
