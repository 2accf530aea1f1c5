/** What a thread gets when no other thread gets in its way: the lookup ends with the thread's own
    SerialArena, found or pushed, and remembers it so that both fast paths answer the next time. */
module ArenaLookup {
  import opened ArenaProtocol
  import opened ArenaLists

  /** Thread t takes these actions one after the other. */
  ghost predicate Alone(s: State, t: Thread, actions: seq<Action>, s': State)
    decreases |actions|
  {
    if actions == [] then s' == s
    else Enabled(s, t, actions[0]) && Alone(Apply(s, t, actions[0]), t, actions[1..], s')
  }

  lemma {:induction false} AloneThen(s: State, t: Thread, first: seq<Action>, s1: State, more: seq<Action>, s2: State)
    requires Alone(s, t, first, s1) && Alone(s1, t, more, s2)
    ensures Alone(s, t, first + more, s2)
    decreases |first|
  {
    hide Enabled, Apply;
    if first == [] {
      assert first + more == more;
    } else {
      AloneThen(Apply(s, t, first[0]), t, first[1..], s1, more, s2);
      assert (first + more)[1..] == first[1..] + more;
    }
  }

  lemma OneAction(s: State, t: Thread, action: Action)
    requires Enabled(s, t, action)
    ensures Alone(s, t, [action], Apply(s, t, action))
  {
    hide Enabled, Apply;
    assert [action][1..] == [];
  }

  /** Apply, as the next action of a lookup. */
  lemma Extend(s: State, t: Thread, actions: seq<Action>, s1: State, action: Action)
    returns (actions': seq<Action>, s': State)
    requires Alone(s, t, actions, s1) && Enabled(s1, t, action)
    ensures Alone(s, t, actions', s') && s' == Apply(s1, t, action)
  {
    hide Enabled, Apply;
    OneAction(s1, t, action);
    s' := Apply(s1, t, action);
    actions' := actions + [action];
    AloneThen(s, t, actions, s1, [action], s');
  }

  lemma GotoTwice(s: State, t: Thread, pc: Pc, pc': Pc)
    ensures Goto(Goto(s, t, pc), t, pc') == Goto(s, t, pc')
  {
    assert s.pcs[t := pc][t := pc'] == s.pcs[t := pc'];
  }

  /** The search walks to the thread's own SerialArena, or to the end if it has none. */
  lemma {:induction false} SearchAlone(s: State, t: Thread, a: ArenaId, cur: Addr, xs: seq<Addr>)
    returns (actions: seq<Action>, s': State)
    requires s.At(t) && s.pcs[t] == Searching(a, cur) && Linked(s.heap, cur, xs)
    ensures Alone(s, t, actions, s')
    ensures s' == Goto(s, t, if Search(s.heap, xs, t) == 0 then Allocating(a) else Caching(a, Search(s.heap, xs, t)))
    decreases |xs|
  {
    OneAction(s, t, SearchOne);
    var s1 := Apply(s, t, SearchOne);
    if xs == [] || s.heap[cur].owner == t {
      actions, s' := [SearchOne], s1;
    } else {
      var next := s.heap[cur].next;
      assert s1 == Goto(s, t, Searching(a, next));
      var more;
      more, s' := SearchAlone(s1, t, a, next, xs[1..]);
      GotoTwice(s, t, Searching(a, next), s'.pcs[t]);
      AloneThen(s, t, [SearchOne], s1, more, s');
      actions := [SearchOne] + more;
    }
  }

  /** The thread's cache and the arena's hint name SerialArena x. */
  ghost predicate Remembered(s: State, t: Thread, a: ArenaId, x: Addr) {
    && t in s.caches && a in s.arenas
    && s.caches[t].lastSerial == x && s.caches[t].lastId == s.arenas[a].tagAndId
    && s.arenas[a].hint == x
  }

  lemma RememberAlone(s: State, t: Thread, a: ArenaId, x: Addr) returns (actions: seq<Action>, s': State)
    requires s.At(t) && s.pcs[t] == Caching(a, x) && IsLive(s, a)
    ensures Alone(s, t, actions, s') && s'.At(t) && s'.pcs[t] == Got(a, x) && IsLive(s', a)
    ensures Remembered(s', t, a, x)
    ensures s'.heap == s.heap && s'.arenas[a].threads == s.arenas[a].threads
  {
    hide Alone;
    NoAction(s, t);
    actions, s' := Extend(s, t, [], s, CacheSerial);
    actions, s' := Extend(s, t, actions, s', Stamp);
    actions, s' := Extend(s, t, actions, s', SetHint);
  }

  lemma NoAction(s: State, t: Thread)
    ensures Alone(s, t, [], s)
  {
  }

  /** A thread without a SerialArena of its own pushes one in front of the list. */
  lemma PushAlone(s: State, t: Thread, a: ArenaId, n: Addr) returns (actions: seq<Action>, s': State)
    requires s.At(t) && s.pcs[t] == Allocating(a) && IsLive(s, a) && n != 0 && n !in s.heap
    ensures Alone(s, t, actions, s') && s'.At(t) && s'.pcs[t] == Caching(a, n) && IsLive(s', a)
    ensures s'.heap == s.heap[n := SerialArena(t, s.arenas[a].threads)] && s'.arenas[a].threads == n
  {
    hide Alone;
    actions, s' := LinkAlone(s, t, a, n);
    actions, s' := Extend(s, t, actions, s', Swap(false));
  }

  lemma NewAlone(s: State, t: Thread, a: ArenaId, n: Addr) returns (actions: seq<Action>, s': State)
    requires s.At(t) && s.pcs[t] == Allocating(a) && IsLive(s, a) && n != 0 && n !in s.heap
    ensures Alone(s, t, actions, s') && s'.At(t) && s'.pcs[t] == Linking(a, n, s.arenas[a].threads)
    ensures s'.heap == s.heap[n := SerialArena(t, 0)] && s'.arenas == s.arenas
  {
    hide Alone;
    NoAction(s, t);
    actions, s' := Extend(s, t, [], s, New(n));
    actions, s' := Extend(s, t, actions, s', LoadHead);
  }

  lemma LinkAlone(s: State, t: Thread, a: ArenaId, n: Addr) returns (actions: seq<Action>, s': State)
    requires s.At(t) && s.pcs[t] == Allocating(a) && IsLive(s, a) && n != 0 && n !in s.heap
    ensures Alone(s, t, actions, s') && s'.At(t) && s'.pcs[t] == Swapping(a, n, s.arenas[a].threads)
    ensures s'.heap == s.heap[n := SerialArena(t, s.arenas[a].threads)] && s'.arenas == s.arenas
  {
    hide Alone;
    actions, s' := NewAlone(s, t, a, n);
    actions, s' := Extend(s, t, actions, s', Link);
    assert s.heap[n := SerialArena(t, 0)][n := SerialArena(t, s.arenas[a].threads)]
        == s.heap[n := SerialArena(t, s.arenas[a].threads)];
  }

  /** The whole lookup: the SerialArena got is the one the list has for the thread, or a new one
      in front of an unchanged list. */
  lemma LookupAlone(s: State, t: Thread, a: ArenaId, xs: seq<Addr>, n: Addr)
    returns (actions: seq<Action>, s': State, x: Addr)
    requires IdleAt(s, t, a) && Linked(s.heap, s.arenas[a].threads, xs) && n != 0 && n !in s.heap
    ensures Alone(s, t, actions, s') && s'.At(t) && s'.pcs[t] == Got(a, x) && IsLive(s', a)
    ensures Remembered(s', t, a, x)
    ensures Search(s.heap, xs, t) != 0 ==>
              x == Search(s.heap, xs, t) && s'.heap == s.heap && s'.arenas[a].threads == s.arenas[a].threads
    ensures Search(s.heap, xs, t) == 0 ==>
              x == n && s'.arenas[a].threads == n && s'.heap == s.heap[n := SerialArena(t, s.arenas[a].threads)]
  {
    hide Alone, Linked;
    NoAction(s, t);
    var s1, more, s2;
    actions, s1 := Extend(s, t, [], s, BeginSearch(a));
    more, s2 := SearchAlone(s1, t, a, s.arenas[a].threads, xs);
    AloneThen(s, t, actions, s1, more, s2);
    actions := actions + more;
    x := Search(s.heap, xs, t);
    if x == 0 {
      x := n;
      more, s1 := PushAlone(s2, t, a, n);
      AloneThen(s, t, actions, s2, more, s1);
      actions, s2 := actions + more, s1;
    }
    more, s' := RememberAlone(s2, t, a, x);
    AloneThen(s, t, actions, s2, more, s');
    actions := actions + more;
  }

  /** What a lookup left behind is what the next one gets, by the cache as by the hint; a hint of
      another thread sends the thread to the search. */
  lemma FastPathsAnswer(s: State, t: Thread, a: ArenaId, x: Addr) returns (byCache: State, byHint: State)
    requires IdleAt(s, t, a) && Remembered(s, t, a, x) && x != 0 && x in s.heap
    ensures Alone(s, t, [FastCache(a)], byCache) && byCache.At(t) && byCache.pcs[t] == Got(a, x)
    ensures Alone(s, t, [LoadHint(a), CheckHint], byHint) && byHint.At(t)
    ensures byHint.pcs[t] == if s.heap[x].owner == t then Got(a, x) else Idle
  {
    hide Alone;
    OneAction(s, t, FastCache(a));
    byCache := Apply(s, t, FastCache(a));
    OneAction(s, t, LoadHint(a));
    var s1 := Apply(s, t, LoadHint(a));
    OneAction(s1, t, CheckHint);
    byHint := Apply(s1, t, CheckHint);
    AloneThen(s, t, [LoadHint(a)], s1, [CheckHint], byHint);
    assert [LoadHint(a)] + [CheckHint] == [LoadHint(a), CheckHint];
  }
}
