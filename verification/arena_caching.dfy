/** The free lists of a SerialArena as their user sees them: which returned arrays are on which list,
    and that none is lost when the table of lists is replaced. */
module ArenaCaching {
  import opened ArenaMemory
  import opened ArenaAccounting
  import opened ArenaEffects

  /** The addresses on each list, the newest last. */
  type Lists = seq<seq<Addr>>

  ghost function Addresses(list: seq<Region>): (r: seq<Addr>)
    ensures |r| == |list|
  {
    seq(|list|, j requires 0 <= j < |list| => list[j].lo)
  }

  ghost function CachedIn(m: Memory): (r: Lists)
    ensures |r| == |m.lists|
  {
    seq(|m.lists|, k requires 0 <= k < |m.lists| => Addresses(m.lists[k]))
  }

  // ----- what a call does to the lists -----

  /** One more array on list i, nothing else. */
  ghost predicate Pushed(before: Lists, after: Lists, i: nat, p: Addr) {
    && i < |before| == |after| && after[i] == before[i] + [p]
    && forall k :: 0 <= k < |before| && k != i ==> after[k] == before[k]
  }

  ghost predicate Popped(before: Lists, after: Lists, i: nat, p: Addr) {
    Pushed(after, before, i, p)
  }

  /** More lists, the new ones empty, the old ones as they were. */
  ghost predicate Lengthened(before: Lists, after: Lists, length: nat) {
    && |before| < length == |after|
    && (forall k :: 0 <= k < |before| ==> after[k] == before[k])
    && forall k :: |before| <= k < length ==> after[k] == []
  }

  // ----- exactly the cached regions are listed -----

  ghost predicate Listed(lists: seq<seq<Region>>, r: Region) {
    && r.role.Cached? && r.role.list < |lists| && r.role.at < |lists[r.role.list]|
    && lists[r.role.list][r.role.at] == r
  }

  ghost predicate AllListed(m: Memory) {
    forall r :: r in m.regions && r.role.Cached? ==> Listed(m.lists, r)
  }

  lemma CachedExactly(m: Memory, r: Region)
    requires FreeListsPlaced(m.lists, m.table, m.regions) && AllListed(m)
    ensures r in m.regions && r.role.Cached? <==> Listed(m.lists, r)
  {
    if Listed(m.lists, r) {
      assert SlotPlaced(m.lists, m.regions, r.role.list, r.role.at);
    }
  }

  lemma MoreListed(m: Memory, m': Memory, t: Region)
    requires AllListed(m) && m'.lists == m.lists && m'.regions == m.regions + {t} && !t.role.Cached?
    ensures AllListed(m')
  {
  }

  lemma TakePops(m: Memory, i: nat, n: nat)
    requires FreeListsPlaced(m.lists, m.table, m.regions) && AllListed(m) && i < |m.lists| && |m.lists[i]| > 0
    ensures AllListed(WithTaken(m, i, n))
    ensures Popped(CachedIn(m), CachedIn(WithTaken(m, i, n)), i, HeadOf(m.lists[i]))
  {
    var m' := WithTaken(m, i, n);
    var last := |m.lists[i]| - 1;
    assert SlotPlaced(m.lists, m.regions, i, last);
    forall r | r in m'.regions && r.role.Cached? ensures Listed(m'.lists, r) {
      assert Listed(m.lists, r);
    }
    assert Addresses(m.lists[i]) == Addresses(m'.lists[i]) + [HeadOf(m.lists[i])];
  }

  lemma ReturnPushes(m: Memory, q: Region, size: nat, i: nat)
    requires AllListed(m) && i < |m.lists|
    ensures AllListed(WithReturned(m, q, size, i))
    ensures Pushed(CachedIn(m), CachedIn(WithReturned(m, q, size, i)), i, q.lo)
  {
    var m' := WithReturned(m, q, size, i);
    forall r | r in m'.regions && r.role.Cached? ensures Listed(m'.lists, r) {
      if r in m.regions {
        assert Listed(m.lists, r);
      }
    }
    assert Addresses(m'.lists[i]) == Addresses(m.lists[i]) + [q.lo];
  }

  lemma TableLengthens(m: Memory, q: Region, size: nat)
    requires AllListed(m) && |m.lists| < TableLength(size)
    ensures AllListed(WithTable(m, q, size))
    ensures Lengthened(CachedIn(m), CachedIn(WithTable(m, q, size)), if size / 8 < 64 then size / 8 else 64)
  {
    var m' := WithTable(m, q, size);
    forall r | r in m'.regions && r.role.Cached? ensures Listed(m'.lists, r) {
      assert Listed(m.lists, r);
    }
  }

  // ----- over a whole run -----

  datatype Event = Return(list: nat, p: Addr) | Replace(length: nat) | Take(list: nat, p: Addr)

  ghost predicate Next(before: Lists, e: Event, after: Lists) {
    match e
    case Return(i, p) => Pushed(before, after, i, p)
    case Replace(length) => Lengthened(before, after, length)
    case Take(i, p) => Popped(before, after, i, p)
  }

  ghost predicate IsRun(states: seq<Lists>, events: seq<Event>) {
    && |states| == |events| + 1
    && forall k :: 0 <= k < |events| ==> Next(states[k], events[k], states[k + 1])
  }

  /** Returns minus takes of one list among the first k events. */
  ghost function Balance(events: seq<Event>, i: nat, k: nat): int
    requires k <= |events|
  {
    if k == 0 then 0
    else
      Balance(events, i, k - 1)
      + match events[k - 1]
        case Return(j, _) => if j == i then 1 else 0
        case Take(j, _) => if j == i then -1 else 0
        case Replace(_) => 0
  }

  /** Never more takes of list i than returns to it, up to event k. */
  ghost predicate NotBelow(events: seq<Event>, i: nat, k: nat)
    requires k <= |events|
  {
    forall j :: 0 <= j <= k ==> Balance(events, i, j) >= 0
  }

  /** Until more is taken from a list than is returned to it, everything that was on it stays on
      it, in its place - whatever happens to other lists and however often the table is replaced. */
  lemma {:induction false} StaysOnList(states: seq<Lists>, events: seq<Event>, i: nat, k: nat)
    requires IsRun(states, events) && i < |states[0]| && k <= |events| && NotBelow(events, i, k)
    ensures i < |states[k]| && |states[k][i]| == |states[0][i]| + Balance(events, i, k)
    ensures states[0][i] <= states[k][i]
  {
    if k > 0 {
      StaysOnList(states, events, i, k - 1);
      assert Next(states[k - 1], events[k - 1], states[k]);
      assert Balance(events, i, k) >= 0;
      StaysOnce(states[0][i], states[k - 1], events[k - 1], states[k], i);
    }
  }

  lemma StaysOnce(first: seq<Addr>, before: Lists, e: Event, after: Lists, i: nat)
    requires Next(before, e, after) && i < |before| && first <= before[i]
    requires e.Take? && e.list == i ==> |before[i]| > |first|
    ensures i < |after| && first <= after[i]
    ensures |after[i]| == |before[i]| + if e.Return? && e.list == i then 1 else if e.Take? && e.list == i then -1 else 0
  {
    match e
    case Return(j, p) =>
    case Replace(length) =>
    case Take(j, p) =>
      if j == i {
        assert before[i] == after[i] + [p];
      }
  }

  /** An array that was returned comes back by the first take of its list that is not the take of
      an array returned later. */
  lemma ReturnedComesBack(states: seq<Lists>, events: seq<Event>, i: nat, p: Addr, r: Addr)
    requires IsRun(states, events) && |events| >= 2 && events[0] == Return(i, p)
    requires events[|events| - 1] == Take(i, r)
    requires NotBelow(events[1..], i, |events| - 2) && Balance(events[1..], i, |events| - 2) == 0
    ensures r == p
  {
    var n := |events|;
    assert Next(states[0], events[0], states[1]) && Next(states[n - 1], events[n - 1], states[n]);
    var rest, more := states[1..], events[1..];
    forall k | 0 <= k < |more| ensures Next(rest[k], more[k], rest[k + 1]) {
      assert Next(states[k + 1], events[k + 1], states[k + 2]);
    }
    StaysOnList(rest, more, i, n - 2);
    assert rest[n - 2] == states[n - 1] && rest[0] == states[1];
    assert states[n - 1][i] == states[1][i];
    assert states[1][i] == states[0][i] + [p] && states[n - 1][i] == states[n][i] + [r];
    assert states[1][i][|states[1][i]| - 1] == p;
  }
}
