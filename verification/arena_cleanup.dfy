/** In which order, and for which nodes, CleanupList runs the registered cleanups. */
module ArenaCleanup {
  import opened Bits
  import opened ArenaMemory
  import opened ArenaAccounting

  function Reverse<T>(s: seq<T>): (r: seq<T>)
    ensures |r| == |s|
  {
    if s == [] then [] else Reverse(s[1..]) + [s[0]]
  }

  lemma {:induction false} ReverseAppend<T>(s: seq<T>, t: seq<T>)
    ensures Reverse(s + t) == Reverse(t) + Reverse(s)
  {
    if s == [] {
      assert s + t == t;
    } else {
      assert (s + t)[1..] == s[1..] + t;
      ReverseAppend(s[1..], t);
    }
  }

  lemma {:induction false} ReverseAt<T>(s: seq<T>, i: nat)
    requires i < |s|
    ensures Reverse(s)[i] == s[|s| - 1 - i]
  {
    if i < |s| - 1 {
      ReverseAt(s[1..], i);
    }
  }

  /** A block whose size is no multiple of 8 places its nodes so that the distance to the
      rounded end, counted in whole nodes, is one too small: a single node is passed over. */
  ghost predicate Runs(k: nat, b: Block) {
    k == 0 || b.size % 8 == 0 || |b.nodes| != 1
  }

  ghost function RunBlock(k: nat, b: Block): seq<Node> {
    if Runs(k, b) then Reverse(b.nodes) else []
  }

  /** The cleanups of a chain in the order CleanupList runs them: newest block first. */
  ghost function RunOrder(chain: seq<Block>): seq<Node> {
    if |chain| == 0 then []
    else RunBlock(|chain| - 1, chain[|chain| - 1]) + RunOrder(chain[..|chain| - 1])
  }

  lemma {:induction false} RunOrderLength(chain: seq<Block>)
    ensures |RunOrder(chain)| <= |Registered(chain)|
    ensures |RunOrder(chain)| == |Registered(chain)| <==> forall k :: 0 <= k < |chain| ==> Runs(k, chain[k])
  {
    if |chain| > 0 {
      var last := |chain| - 1;
      RunOrderLength(chain[..last]);
      if Runs(last, chain[last]) && (forall k :: 0 <= k < last ==> Runs(k, chain[..last][k])) {
        forall k | 0 <= k < |chain| ensures Runs(k, chain[k]) {
          if k < last { assert chain[..last][k] == chain[k]; }
        }
      }
      if forall k :: 0 <= k < |chain| ==> Runs(k, chain[k]) {
        assert forall k :: 0 <= k < last ==> chain[..last][k] == chain[k];
      }
    }
  }

  /** Every registered cleanup runs, in exactly the reverse of the order of registration,
      if and only if no block other than the oldest has an odd size and a single node. */
  lemma {:induction false} RunsInReverse(chain: seq<Block>)
    ensures RunOrder(chain) == Reverse(Registered(chain))
       <==> forall k :: 0 <= k < |chain| ==> Runs(k, chain[k])
  {
    RunOrderLength(chain);
    if forall k :: 0 <= k < |chain| ==> Runs(k, chain[k]) {
      RunsAllInReverse(chain);
    }
  }

  lemma {:induction false} RunsAllInReverse(chain: seq<Block>)
    requires forall k :: 0 <= k < |chain| ==> Runs(k, chain[k])
    ensures RunOrder(chain) == Reverse(Registered(chain))
  {
    if |chain| > 0 {
      var last := |chain| - 1;
      assert forall k :: 0 <= k < last ==> chain[..last][k] == chain[k];
      RunsAllInReverse(chain[..last]);
      assert Runs(last, chain[last]);
      ReverseAppend(Registered(chain[..last]), chain[last].nodes);
    }
  }

  /** A 514-byte block holding one cleanup node, behind a full first block of 257 bytes: the
      node's cleanup never runs. */
  lemma SingleNodeInOddBlockIsSkipped(node: Node)
    ensures var chain := [Block(4096, 257, 152, []), Block(8192, 514, 0, [node])];
            Layout(chain) && Registered(chain) == [node] && RunOrder(chain) == []
  {
    var first, second := Block(4096, 257, 152, []), Block(8192, 514, 0, [node]);
    var chain := [first, second];
    assert BlockOk(0, first) && BlockOk(1, second);
    assert chain[..1] == [first] && [first][..0] == [];
    assert Registered([first]) == [] && RunOrder([first]) == [] by {
      assert Reverse(first.nodes) == [];
    }
    assert !Runs(1, second);
  }

  /** Pointer difference in units of 16-byte nodes. C++ leaves it undefined when the distance is not
      a whole number of nodes; it is taken to be truncated. */
  function NodesBetween(it: int, limit: int): int {
    if limit >= it then (limit - it) / 16 else -((it - limit) / 16)
  }

  /** What the loop over one block does. */
  lemma BlockRuns(k: nat, b: Block)
    requires BlockOk(k, b)
    ensures NodesBetween(Stop(k, b), b.base + RoundDownTo8(b.size)) > 0 <==> |b.nodes| > 0 && Runs(k, b)
    ensures forall j :: 0 <= j < |b.nodes| ==> NodeAt(k, b, j) < b.base + RoundDownTo8(b.size)
    ensures b.base + RoundDownTo8(b.size) <= Top(k, b)
  {
    RoundDownTo8Exact(b.size);
  }
}
