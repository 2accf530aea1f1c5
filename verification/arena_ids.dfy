/** Lifecycle ids: no two initialisations of arenas, on any threads, draw the same id. */
module ArenaIds {
  import opened ArenaProtocol

  /** The id is still in the batch this thread draws from. */
  ghost predicate InBatch(c: ThreadCache, id: nat) {
    c.nextId % 512 != 0 && c.nextId <= id && id / 512 == c.nextId / 512
  }

  /** The id was drawn before: no thread will draw it again. */
  ghost predicate Drawn(s: State, id: nat) {
    && id % 2 == 0 && id < s.generator * 512
    && forall t :: t in s.caches ==> !InBatch(s.caches[t], id)
  }

  ghost function WithoutTag(id: nat): nat { id - id % 2 }

  ghost predicate Remembers(c: ThreadCache, id: nat) {
    c.lastId != NO_ID && WithoutTag(c.lastId) == id
  }

  /** The thread draws from a batch it reserved. */
  ghost predicate DrawsFrom(generator: nat, c: ThreadCache) {
    c.nextId % 2 == 0 && (c.nextId % 512 != 0 ==> c.nextId < generator * 512)
  }

  ghost predicate SeenId(s: State, c: ThreadCache) {
    c.lastId != NO_ID ==> Drawn(s, WithoutTag(c.lastId))
  }

  ghost predicate OtherBatch(c: ThreadCache, d: ThreadCache) {
    c.nextId % 512 != 0 && d.nextId % 512 != 0 ==> c.nextId / 512 != d.nextId / 512
  }

  ghost predicate HasArenaId(s: State, a: ArenaId, id: nat) {
    a in s.arenas && s.arenas[a].Identified() && s.arenas[a].Id() == id
  }

  /** The id a thread has drawn and not yet given to its arena is used nowhere else. */
  ghost predicate Unshared(s: State, t: Thread)
    requires t in s.pcs && s.pcs[t].HasId?
  {
    var id := s.pcs[t].id;
    && Drawn(s, id)
    && (forall a :: a in s.arenas ==> !HasArenaId(s, a, id))
    && (forall u :: u in s.caches ==> !Remembers(s.caches[u], id))
    && (forall u :: u in s.pcs && u != t && s.pcs[u].HasId? ==> s.pcs[u].id != id)
  }

  ghost predicate AllDrawFrom(s: State) {
    forall t :: t in s.caches ==> DrawsFrom(s.generator, s.caches[t])
  }

  ghost predicate AllOtherBatches(s: State) {
    forall t, u :: t in s.caches && u in s.caches && t != u ==> OtherBatch(s.caches[t], s.caches[u])
  }

  ghost predicate AllSeen(s: State) {
    forall t :: t in s.caches ==> SeenId(s, s.caches[t])
  }

  ghost predicate ArenaIdDrawn(s: State, a: ArenaId) {
    a in s.arenas && s.arenas[a].Identified() ==> Drawn(s, s.arenas[a].Id())
  }

  /** Two arenas in use never have the same id. */
  ghost predicate DifferentIds(s: State, a: ArenaId, b: ArenaId) {
    (a in s.arenas && b in s.arenas && a != b && s.arenas[a].Identified() && s.arenas[b].Identified())
    ==> s.arenas[a].Id() != s.arenas[b].Id()
  }

  ghost predicate AllUnshared(s: State) {
    forall t :: t in s.pcs && s.pcs[t].HasId? ==> Unshared(s, t)
  }

  ghost predicate IdsOk(s: State) {
    && s.pcs.Keys == s.caches.Keys
    && s.generator * 512 < NO_ID
    && AllDrawFrom(s) && AllOtherBatches(s) && AllSeen(s)
    && (forall a :: ArenaIdDrawn(s, a))
    && (forall a, b :: DifferentIds(s, a, b))
    && AllUnshared(s)
  }

  // ----- steps that draw no id -----

  ghost predicate SameOrNew(c: ThreadCache, d: ThreadCache) {
    (d.nextId == c.nextId && d.lastId == c.lastId) || (d.nextId == 0 && d.lastId == NO_ID)
  }

  /** No id was drawn, given to an arena or stamped into a cache. */
  ghost predicate Quiet(s: State, s': State) {
    && s'.generator == s.generator
    && s'.pcs.Keys == s'.caches.Keys
    && (forall u :: u in s'.caches ==> SameOrNew(if u in s.caches then s.caches[u] else NEW_CACHE, s'.caches[u]))
    && (forall a :: a in s'.arenas && s'.arenas[a].Identified() ==>
          a in s.arenas && s.arenas[a].Identified() && s'.arenas[a].tagAndId == s.arenas[a].tagAndId)
    && (forall u :: u in s'.pcs && s'.pcs[u].HasId? ==> u in s.pcs && s'.pcs[u] == s.pcs[u])
  }

  lemma DrawnStays(s: State, s': State, id: nat)
    requires Quiet(s, s') && Drawn(s, id)
    ensures Drawn(s', id)
  {
    forall t | t in s'.caches ensures !InBatch(s'.caches[t], id) {
      if t in s.caches {
        assert !InBatch(s.caches[t], id);
      }
    }
  }

  lemma QuietKeepsIds(s: State, s': State)
    requires IdsOk(s) && Quiet(s, s')
    ensures IdsOk(s')
  {
    hide Drawn, InBatch;
    forall id | Drawn(s, id) ensures Drawn(s', id) {
      DrawnStays(s, s', id);
    }
    QuietKeepsBatches(s, s');
    forall u | u in s'.caches ensures SeenId(s', s'.caches[u]) {
      if u in s.caches {
        assert SeenId(s, s.caches[u]);
      }
    }
    forall a ensures ArenaIdDrawn(s', a) {
      assert ArenaIdDrawn(s, a);
    }
    forall a, b ensures DifferentIds(s', a, b) {
      assert DifferentIds(s, a, b);
    }
    forall u | u in s'.pcs && s'.pcs[u].HasId? ensures Unshared(s', u) {
      assert Unshared(s, u);
      forall v | v in s'.caches ensures !Remembers(s'.caches[v], s.pcs[u].id) {
        assert v in s.caches ==> !Remembers(s.caches[v], s.pcs[u].id);
      }
      forall a | a in s'.arenas ensures !HasArenaId(s', a, s.pcs[u].id) {
        assert a in s.arenas ==> !HasArenaId(s, a, s.pcs[u].id);
      }
    }
  }

  lemma QuietKeepsBatches(s: State, s': State)
    requires IdsOk(s) && Quiet(s, s')
    ensures AllDrawFrom(s') && AllOtherBatches(s')
  {
    hide Drawn, InBatch, SeenId, AllUnshared, ArenaIdDrawn, DifferentIds;
    forall u | u in s'.caches ensures DrawsFrom(s'.generator, s'.caches[u]) {
      assert u in s.caches ==> DrawsFrom(s.generator, s.caches[u]);
    }
    forall u, v | u in s'.caches && v in s'.caches && u != v ensures OtherBatch(s'.caches[u], s'.caches[v]) {
      if u in s.caches && v in s.caches {
        assert OtherBatch(s.caches[u], s.caches[v]);
      }
    }
  }

  ghost predicate DrawsNothing(action: Action) {
    !action.FetchId? && !action.Publish? && !action.Stamp?
  }

  lemma StepIsQuiet(s: State, t: Thread, action: Action)
    requires s.pcs.Keys == s.caches.Keys && Enabled(s, t, action) && DrawsNothing(action)
    ensures Quiet(s, Apply(s, t, action))
  {
    hide Enabled, Apply;
    QuietCaches(s, t, action);
    QuietArenas(s, t, action);
    QuietPcs(s, t, action);
  }

  lemma QuietCaches(s: State, t: Thread, action: Action)
    requires s.pcs.Keys == s.caches.Keys && Enabled(s, t, action) && DrawsNothing(action)
    ensures var s' := Apply(s, t, action);
            && s'.generator == s.generator
            && s'.pcs.Keys == s'.caches.Keys
            && forall u :: u in s'.caches ==> SameOrNew(if u in s.caches then s.caches[u] else NEW_CACHE, s'.caches[u])
  {
  }

  lemma QuietArenas(s: State, t: Thread, action: Action)
    requires Enabled(s, t, action) && DrawsNothing(action)
    ensures var s' := Apply(s, t, action);
            forall a :: a in s'.arenas && s'.arenas[a].Identified() ==>
              a in s.arenas && s.arenas[a].Identified() && s'.arenas[a].tagAndId == s.arenas[a].tagAndId
  {
  }

  lemma QuietPcs(s: State, t: Thread, action: Action)
    requires Enabled(s, t, action) && DrawsNothing(action)
    ensures var s' := Apply(s, t, action);
            forall u :: u in s'.pcs && s'.pcs[u].HasId? ==> u in s.pcs && s'.pcs[u] == s.pcs[u]
  {
  }

  // ----- drawing an id -----

  /** Positions inside batches: n is the r-th number of the q-th batch. */
  ghost predicate At512(n: nat, q: nat, r: nat) {
    n == q * 512 + r && r < 512
  }

  lemma QuotientOf(n: nat, q: nat, r: nat)
    requires At512(n, q, r)
    ensures n / 512 == q && n % 512 == r
  {
  }

  lemma PositionOf(n: nat)
    ensures At512(n, n / 512, n % 512)
  {
  }

  lemma Next(n: nat)
    requires n % 2 == 0
    ensures (n + 2) % 2 == 0
    ensures (n + 2) % 512 != 0 ==> (n + 2) / 512 == n / 512
    ensures (n + 2) % 512 == 0 || n % 512 <= 508
  {
    PositionOf(n);
    if n % 512 == 510 {
      QuotientOf(n + 2, n / 512 + 1, 0);
    } else {
      EvenRemainder(n);
      QuotientOf(n + 2, n / 512, n % 512 + 2);
    }
  }

  lemma EvenRemainder(n: nat)
    requires n % 2 == 0
    ensures n % 512 % 2 == 0
  {
    PositionOf(n);
    Doubled(n % 512, n / 2 - 256 * (n / 512));
  }

  lemma Doubled(n: int, k: int)
    requires n == 2 * k
    ensures n % 2 == 0
  {
  }

  lemma BelowGenerator(n: nat, generator: nat)
    ensures n < generator * 512 <==> n / 512 < generator
  {
    PositionOf(n);
  }

  lemma FirstOfNewBatch(generator: nat, c: ThreadCache)
    requires DrawsFrom(generator, c)
    ensures !InBatch(c, generator * 512)
  {
    BelowGenerator(c.nextId, generator);
    QuotientOf(generator * 512, generator, 0);
  }

  lemma NextKeepsBatch(c: ThreadCache, i: nat)
    requires c.nextId % 2 == 0 && c.nextId % 512 != 0
    ensures InBatch(c.(nextId := c.nextId + 2), i) ==> InBatch(c, i)
    ensures InBatch(c, c.nextId) && !InBatch(c.(nextId := c.nextId + 2), c.nextId)
  {
    Next(c.nextId);
  }

  lemma NewBatchIsLater(generator: nat, c: ThreadCache, i: nat)
    requires i <= generator * 512
    ensures var d := c.(nextId := generator * 512 + 2);
            !InBatch(d, i) && d.nextId % 512 == 2 && d.nextId / 512 == generator
  {
    QuotientOf(generator * 512 + 2, generator, 2);
  }

  /** An id drawn is even, was never drawn before, and will not be drawn again. */
  lemma FetchIsNew(s: State, t: Thread, i: nat)
    requires IdsOk(s) && Enabled(s, t, FetchId)
    ensures var s' := Apply(s, t, FetchId); var id := DrawnId(s, s.caches[t]);
            Drawn(s', id) && (Drawn(s, i) ==> i != id && Drawn(s', i))
  {
    hide InBatch, OtherBatch, AllUnshared, AllSeen, ArenaIdDrawn, DifferentIds, Drawn;
    var s' := Apply(s, t, FetchId);
    var c := s.caches[t];
    var id := DrawnId(s, c);
    DrawnBounds(s, i);
    FetchedBounds(s.generator, c);
    if c.nextId % 512 == 0 {
      NewBatchIsLater(s.generator, c, id);
      if Drawn(s, i) {
        NewBatchIsLater(s.generator, c, i);
      }
    } else {
      NextKeepsBatch(c, i);
    }
    forall u | u in s'.caches && u != t ensures !InBatch(s'.caches[u], id) {
      NotInOthersBatch(s, t, u);
    }
    DrawnIf(s', id);
    if Drawn(s, i) {
      forall u | u in s'.caches ensures !InBatch(s'.caches[u], i) {
        DrawnNotIn(s, i, u);
      }
      DrawnIf(s', i);
      DrawnNotIn(s, i, t);
      if c.nextId % 512 != 0 {
        NextKeepsBatch(c, c.nextId);
      }
    }
  }

  lemma DrawnBounds(s: State, i: nat)
    ensures Drawn(s, i) ==> i % 2 == 0 && i < s.generator * 512
  {
  }

  lemma DrawnNotIn(s: State, i: nat, u: Thread)
    requires Drawn(s, i) && u in s.caches
    ensures !InBatch(s.caches[u], i)
  {
  }

  lemma DrawnIf(s: State, i: nat)
    requires i % 2 == 0 && i < s.generator * 512
    requires forall u :: u in s.caches ==> !InBatch(s.caches[u], i)
    ensures Drawn(s, i)
  {
  }

  lemma FetchedBounds(generator: nat, c: ThreadCache)
    requires DrawsFrom(generator, c)
    ensures generator * 512 % 2 == 0 && c.nextId % 2 == 0
    ensures c.nextId % 512 != 0 ==> c.nextId < generator * 512
  {
    Doubled(generator * 512, generator * 256);
  }

  lemma NotInOthersBatch(s: State, t: Thread, u: Thread)
    requires AllDrawFrom(s) && AllOtherBatches(s) && t in s.caches && u in s.caches && u != t
    ensures !InBatch(s.caches[u], DrawnId(s, s.caches[t]))
  {
    hide InBatch;
    FirstOfNewBatch(s.generator, s.caches[u]);
    SameBatch(s.caches[t], s.caches[u]);
  }

  lemma SameBatch(c: ThreadCache, d: ThreadCache)
    ensures c.nextId % 512 != 0 && OtherBatch(d, c) ==> !InBatch(d, c.nextId)
  {
  }

  lemma FetchBatches(s: State, t: Thread)
    requires IdsOk(s) && Enabled(s, t, FetchId)
    ensures var s' := Apply(s, t, FetchId);
            AllOtherBatches(s') && AllDrawFrom(s') && s'.generator * 512 < NO_ID
  {
    hide Drawn, InBatch, SeenId, AllUnshared, ArenaIdDrawn, DifferentIds;
    var s' := Apply(s, t, FetchId);
    var c := s.caches[t];
    forall u | u in s'.caches ensures DrawsFrom(s'.generator, s'.caches[u]) {
      assert DrawsFrom(s.generator, s.caches[u]);
      DrawsFromLater(s, t, u);
    }
    forall u, v | u in s'.caches && v in s'.caches && u != v ensures OtherBatch(s'.caches[u], s'.caches[v]) {
      assert OtherBatch(s.caches[u], s.caches[v]);
      assert DrawsFrom(s.generator, s.caches[u]) && DrawsFrom(s.generator, s.caches[v]);
      DrawingKeepsApart(s, t, u, v);
    }
  }

  lemma MoreReserved(generator: nat, c: ThreadCache)
    requires DrawsFrom(generator, c)
    ensures DrawsFrom(generator + 1, c)
  {
  }

  lemma DrewFrom(generator: nat, c: ThreadCache)
    requires DrawsFrom(generator, c)
    ensures if c.nextId % 512 == 0 then DrawsFrom(generator + 1, c.(nextId := generator * 512 + 2))
            else DrawsFrom(generator, c.(nextId := c.nextId + 2))
  {
    if c.nextId % 512 == 0 {
      Doubled(generator * 512 + 2, generator * 256 + 1);
    } else {
      NextStaysBelow(c.nextId, generator);
    }
  }

  lemma NextStaysBelow(n: nat, generator: nat)
    requires n % 2 == 0 && n < generator * 512
    ensures (n + 2) % 2 == 0 && ((n + 2) % 512 != 0 ==> n + 2 < generator * 512)
  {
    hide At512;
    Next(n);
    BelowGenerator(n, generator);
    BelowGenerator(n + 2, generator);
  }

  lemma DrawsFromLater(s: State, t: Thread, u: Thread)
    requires Enabled(s, t, FetchId) && u in s.caches
    requires DrawsFrom(s.generator, s.caches[u])
    ensures DrawsFrom(Apply(s, t, FetchId).generator, Apply(s, t, FetchId).caches[u])
  {
    hide DrawsFrom;
    if u == t {
      DrewFrom(s.generator, s.caches[t]);
    } else {
      MoreReserved(s.generator, s.caches[u]);
    }
  }

  lemma DrawingKeepsApart(s: State, t: Thread, u: Thread, v: Thread)
    requires Enabled(s, t, FetchId) && u in s.caches && v in s.caches && u != v
    requires DrawsFrom(s.generator, s.caches[u]) && DrawsFrom(s.generator, s.caches[v])
    requires OtherBatch(s.caches[u], s.caches[v])
    ensures OtherBatch(Apply(s, t, FetchId).caches[u], Apply(s, t, FetchId).caches[v])
  {
    var c := s.caches[t];
    if c.nextId % 512 == 0 {
      NewBatchIsLater(s.generator, c, 0);
      NotReserved(s.generator, s.caches[u]);
      NotReserved(s.generator, s.caches[v]);
    } else if u == t || v == t {
      Next(c.nextId);
    }
  }

  lemma NotReserved(generator: nat, c: ThreadCache)
    requires DrawsFrom(generator, c)
    ensures c.nextId % 512 != 0 ==> c.nextId / 512 != generator
  {
    BelowGenerator(c.nextId, generator);
  }

  lemma IdsKeptFetch(s: State, t: Thread)
    requires IdsOk(s) && Enabled(s, t, FetchId)
    ensures IdsOk(Apply(s, t, FetchId))
  {
    hide Drawn, OtherBatch, InBatch, AllDrawFrom, AllOtherBatches;
    var s' := Apply(s, t, FetchId);
    var id := DrawnId(s, s.caches[t]);
    forall i ensures Drawn(s', id) && (Drawn(s, i) ==> i != id && Drawn(s', i)) {
      FetchIsNew(s, t, i);
    }
    FetchBatches(s, t);
    forall u | u in s'.caches ensures SeenId(s', s'.caches[u]) && !Remembers(s'.caches[u], id) {
      assert SeenId(s, s.caches[u]);
    }
    forall a ensures ArenaIdDrawn(s', a) && !HasArenaId(s', a, id) {
      assert ArenaIdDrawn(s, a);
    }
    forall a, b ensures DifferentIds(s', a, b) {
      assert DifferentIds(s, a, b);
    }
    forall u | u in s'.pcs && s'.pcs[u].HasId? ensures Unshared(s', u) {
      FetchedUnshared(s, t, u);
    }
  }

  lemma FetchedUnshared(s: State, t: Thread, u: Thread)
    requires Enabled(s, t, FetchId) && AllUnshared(s)
    requires var s' := Apply(s, t, FetchId); var id := DrawnId(s, s.caches[t]);
             && s.pcs.Keys == s.caches.Keys
             && u in s'.pcs && s'.pcs[u].HasId?
             && Drawn(s', id)
             && (forall i :: Drawn(s, i) ==> i != id && Drawn(s', i))
             && (forall v :: v in s'.caches ==> !Remembers(s'.caches[v], id))
             && (forall a :: !HasArenaId(s', a, id))
    ensures Unshared(Apply(s, t, FetchId), u)
  {
    hide Drawn, OtherBatch, InBatch, AllDrawFrom, AllOtherBatches;
    var s' := Apply(s, t, FetchId);
    if u != t {
      assert Unshared(s, u);
      forall v | v in s'.caches ensures !Remembers(s'.caches[v], s.pcs[u].id) {
        assert !Remembers(s.caches[v], s.pcs[u].id);
      }
      forall a | a in s'.arenas ensures !HasArenaId(s', a, s.pcs[u].id) {
        assert !HasArenaId(s, a, s.pcs[u].id);
      }
    } else {
      forall v | v in s'.pcs && v != t && s'.pcs[v].HasId? ensures s'.pcs[v].id != s'.pcs[t].id {
        assert Unshared(s, v);
      }
    }
  }

  // ----- giving the id to the arena, stamping it into the cache -----

  /** Steps that change neither the generator nor what the threads will draw. */
  lemma SameDraws(s: State, s': State, id: nat)
    requires s'.generator == s.generator && s'.caches.Keys == s.caches.Keys
    requires forall u :: u in s'.caches ==> s'.caches[u].nextId == s.caches[u].nextId
    ensures Drawn(s, id) <==> Drawn(s', id)
    ensures AllDrawFrom(s) ==> AllDrawFrom(s')
    ensures AllOtherBatches(s) ==> AllOtherBatches(s')
  {
    forall u | u in s.caches ensures InBatch(s.caches[u], id) == InBatch(s'.caches[u], id) {
    }
    if AllDrawFrom(s) {
      forall u | u in s'.caches ensures DrawsFrom(s'.generator, s'.caches[u]) {
        assert DrawsFrom(s.generator, s.caches[u]);
      }
    }
    if AllOtherBatches(s) {
      forall u, v | u in s'.caches && v in s'.caches && u != v ensures OtherBatch(s'.caches[u], s'.caches[v]) {
        assert OtherBatch(s.caches[u], s.caches[v]);
      }
    }
  }

  lemma IdsKeptPublish(s: State, t: Thread)
    requires IdsOk(s) && Enabled(s, t, Publish)
    ensures IdsOk(Apply(s, t, Publish))
  {
    hide Drawn, OtherBatch, InBatch, AllDrawFrom, AllOtherBatches;
    var s' := Apply(s, t, Publish);
    var a, id := s.pcs[t].arena, s.pcs[t].id;
    assert Unshared(s, t);
    forall i ensures Drawn(s, i) <==> Drawn(s', i) {
      SameDraws(s, s', i);
    }
    SameDraws(s, s', 0);
    DrawnIsEven(s, id);
    assert s'.arenas[a].Id() == id;
    forall u | u in s'.caches ensures SeenId(s', s'.caches[u]) {
      assert SeenId(s, s.caches[u]);
    }
    forall b ensures ArenaIdDrawn(s', b) {
      assert ArenaIdDrawn(s, b);
    }
    forall b, c ensures DifferentIds(s', b, c) {
      assert DifferentIds(s, b, c);
      assert b in s.arenas ==> !HasArenaId(s, b, id);
      assert c in s.arenas ==> !HasArenaId(s, c, id);
    }
    forall u | u in s'.pcs && s'.pcs[u].HasId? ensures Unshared(s', u) {
      assert Unshared(s, u);
      forall b | b in s'.arenas ensures !HasArenaId(s', b, s.pcs[u].id) {
        assert b in s.arenas ==> !HasArenaId(s, b, s.pcs[u].id);
      }
    }
  }

  lemma DrawnIsEven(s: State, id: nat)
    requires Drawn(s, id)
    ensures id % 2 == 0 && id + 1 < s.generator * 512
  {
  }

  lemma IdsKeptStamp(s: State, t: Thread)
    requires IdsOk(s) && Enabled(s, t, Stamp) && s.arenas[s.pcs[t].arena].Identified()
    ensures IdsOk(Apply(s, t, Stamp))
  {
    hide Drawn, OtherBatch, InBatch, AllDrawFrom, AllOtherBatches;
    var s' := Apply(s, t, Stamp);
    var a := s.pcs[t].arena;
    forall i ensures Drawn(s, i) <==> Drawn(s', i) {
      SameDraws(s, s', i);
    }
    SameDraws(s, s', 0);
    assert ArenaIdDrawn(s, a);
    forall u | u in s'.caches ensures SeenId(s', s'.caches[u]) {
      assert SeenId(s, s.caches[u]);
    }
    forall b ensures ArenaIdDrawn(s', b) {
      assert ArenaIdDrawn(s, b);
    }
    forall b, c ensures DifferentIds(s', b, c) {
      assert DifferentIds(s, b, c);
    }
    forall u | u in s'.pcs && s'.pcs[u].HasId? ensures Unshared(s', u) {
      assert Unshared(s, u);
      assert !HasArenaId(s, a, s.pcs[u].id);
      forall v | v in s'.caches ensures !Remembers(s'.caches[v], s.pcs[u].id) {
        assert !Remembers(s.caches[v], s.pcs[u].id);
      }
      forall b | b in s'.arenas ensures !HasArenaId(s', b, s.pcs[u].id) {
        assert !HasArenaId(s, b, s.pcs[u].id);
      }
    }
  }

  /** A thread stamps its cache only with the id of an arena in use. */
  ghost predicate StampsIdentified(s: State, t: Thread, action: Action)
    requires Enabled(s, t, action)
  {
    action.Stamp? ==> s.arenas[s.pcs[t].arena].Identified()
  }

  lemma IdsKept(s: State, t: Thread, action: Action)
    requires IdsOk(s) && Enabled(s, t, action) && StampsIdentified(s, t, action)
    ensures IdsOk(Apply(s, t, action))
  {
    hide *;
    if action.FetchId? {
      IdsKeptFetch(s, t);
    } else if action.Publish? {
      IdsKeptPublish(s, t);
    } else if action.Stamp? {
      StampedIdentified(s, t);
      IdsKeptStamp(s, t);
    } else {
      KeysAgree(s);
      NothingDrawn(action);
      StepIsQuiet(s, t, action);
      QuietKeepsIds(s, Apply(s, t, action));
    }
  }

  lemma StampedIdentified(s: State, t: Thread)
    requires Enabled(s, t, Stamp) && StampsIdentified(s, t, Stamp)
    ensures s.pcs[t].arena in s.arenas && s.arenas[s.pcs[t].arena].Identified()
  {
  }

  lemma NothingDrawn(action: Action)
    requires !action.FetchId? && !action.Publish? && !action.Stamp?
    ensures DrawsNothing(action)
  {
  }

  lemma KeysAgree(s: State)
    requires IdsOk(s)
    ensures s.pcs.Keys == s.caches.Keys
  {
  }

  lemma PublishKeepsTag(s: State, t: Thread, a: ArenaId)
    requires IdsOk(s) && Enabled(s, t, Publish) && a in s.arenas
    ensures a in Apply(s, t, Publish).arenas
    ensures Apply(s, t, Publish).arenas[a].tagAndId % 2 == s.arenas[a].tagAndId % 2
  {
    hide OtherBatch, InBatch, Drawn;
    assert Unshared(s, t);
    DrawnIsEven(s, s.pcs[t].id);
  }

  lemma OthersKeepTag(s: State, t: Thread, action: Action, a: ArenaId)
    requires Enabled(s, t, action) && a in s.arenas && a in Apply(s, t, action).arenas && !action.Publish?
    ensures Apply(s, t, action).arenas[a].tagAndId == s.arenas[a].tagAndId
  {
  }

  /** The message-owned tag survives every initialisation. */
  lemma TagSurvives(s: State, t: Thread, action: Action, a: ArenaId)
    requires IdsOk(s) && Enabled(s, t, action) && a in s.arenas && a in Apply(s, t, action).arenas
    ensures Apply(s, t, action).arenas[a].tagAndId % 2 == s.arenas[a].tagAndId % 2
  {
    hide Apply, Enabled, IdsOk;
    if action.Publish? {
      PublishKeepsTag(s, t, a);
    } else {
      OthersKeepTag(s, t, action, a);
    }
  }
}
