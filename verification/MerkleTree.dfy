/**
 The block merkle: merkle() recomputes the root from all leaves, while
 incremental_merkle keeps only the nodes a later append can need. The hash of a
 canonical pair is a parameter.
 */
module MerkleTree {

  /** The parents of all complete pairs; an odd last node is left out. */
  function Pairs<D>(ids: seq<D>, h: (D, D) -> D): (r: seq<D>)
    ensures |r| == |ids| / 2
  {
    seq(|ids| / 2, i requires 0 <= i < |ids| / 2 => h(ids[2 * i], ids[2 * i + 1]))
  }

  /** The next level: an odd last node is paired with itself. */
  function Level<D>(ids: seq<D>, h: (D, D) -> D): (r: seq<D>)
    ensures |r| == (|ids| + 1) / 2
  {
    if |ids| % 2 == 1 then Pairs(ids + [ids[|ids| - 1]], h) else Pairs(ids, h)
  }

  /** The root over all leaves. */
  function Root<D>(ids: seq<D>, h: (D, D) -> D, zero: D): D
    decreases |ids|
  {
    if |ids| == 0 then zero else if |ids| == 1 then ids[0] else Root(Level(ids, h), h, zero)
  }

  /** merkle(), level by level. */
  method Merkle<D>(leaves: seq<D>, h: (D, D) -> D, zero: D) returns (root: D)
    ensures root == Root(leaves, h, zero)
  {
    var ids := leaves;
    if 0 == |ids| {
      return zero;
    }
    while |ids| > 1
      invariant |ids| >= 1
      invariant Root(ids, h, zero) == Root(leaves, h, zero)
      decreases |ids|
    {
      ghost var level := Level(ids, h);
      if |ids| % 2 == 1 {
        ids := ids + [ids[|ids| - 1]];
      }
      ids := HashPairs(ids, h);
      assert ids == level;
    }
    return ids[0];
  }

  /** The inner loop writes each parent over a node that is no longer needed. */
  method HashPairs<D>(nodes: seq<D>, h: (D, D) -> D) returns (ids: seq<D>)
    ensures ids == Pairs(nodes, h)
  {
    ids := nodes;
    var i := 0;
    while i < |ids| / 2
      invariant 0 <= i <= |nodes| / 2 && |ids| == |nodes|
      invariant forall k | 0 <= k < i :: ids[k] == h(nodes[2 * k], nodes[2 * k + 1])
      invariant forall k | i <= k < |nodes| :: ids[k] == nodes[k]
    {
      ids := ids[i := h(ids[2 * i], ids[2 * i + 1])];
      i := i + 1;
    }
    ids := ids[..|ids| / 2];
  }

  /**
   The nodes an append can still need: on every level the complete left node that
   waits for its partner, lowest level first.
   */
  function Waiting<D>(ids: seq<D>, h: (D, D) -> D): seq<D>
    decreases |ids|
  {
    if ids == [] then []
    else (if |ids| % 2 == 1 then [ids[|ids| - 1]] else []) + Waiting(Pairs(ids, h), h)
  }

  // ---------------------------------------------------------------------
  // Adding one node at the end of a level
  // ---------------------------------------------------------------------

  lemma PairsOfEven<D>(level: seq<D>, top: D, h: (D, D) -> D)
    requires |level| % 2 == 0
    ensures Pairs(level + [top], h) == Pairs(level, h)
    ensures Level(level + [top], h) == Pairs(level, h) + [h(top, top)]
  {
    var n := |level| / 2;
    var all := level + [top] + [top];
    assert (level + [top])[|level|] == top;
    forall i | 0 <= i < n ensures Pairs(all, h)[i] == Pairs(level, h)[i] {
      assert all[2 * i] == level[2 * i] && all[2 * i + 1] == level[2 * i + 1];
    }
    assert Pairs(all, h)[n] == h(top, top);
  }

  lemma PairsOfOdd<D>(level: seq<D>, top: D, h: (D, D) -> D)
    requires |level| % 2 == 1
    ensures Pairs(level + [top], h) == Pairs(level, h) + [h(level[|level| - 1], top)]
    ensures Level(level + [top], h) == Pairs(level, h) + [h(level[|level| - 1], top)]
  {
    var n := |level| / 2;
    var all := level + [top];
    forall i | 0 <= i < n ensures Pairs(all, h)[i] == Pairs(level, h)[i] {
      assert all[2 * i] == level[2 * i] && all[2 * i + 1] == level[2 * i + 1];
    }
    assert Pairs(all, h)[n] == h(level[|level| - 1], top);
  }

  lemma RootOfLevel<D>(ids: seq<D>, h: (D, D) -> D, zero: D)
    requires |ids| > 1
    ensures Root(ids, h, zero) == Root(Level(ids, h), h, zero)
  {
  }

  lemma WaitingOfEven<D>(ids: seq<D>, h: (D, D) -> D)
    requires |ids| % 2 == 0
    ensures Waiting(ids, h) == Waiting(Pairs(ids, h), h)
  {
    if ids == [] {
      assert Pairs(ids, h) == [];
    }
  }

  lemma WaitingOfOdd<D>(ids: seq<D>, h: (D, D) -> D)
    requires |ids| % 2 == 1
    ensures Waiting(ids, h) == [ids[|ids| - 1]] + Waiting(Pairs(ids, h), h)
  {
  }

  lemma SingleNode<D>(top: D, h: (D, D) -> D, zero: D)
    ensures Waiting([top], h) == [top] && Root([top], h, zero) == top
  {
    assert Pairs([top], h) == [];
  }

  lemma TwoLeaves<D>(a: D, b: D, h: (D, D) -> D, zero: D)
    ensures Root([a, b], h, zero) == h(a, b)
  {
    assert Level([a, b], h) == [h(a, b)];
    RootOfLevel([a, b], h, zero);
  }

  /** The shape of small trees: left before right, and an odd node beside itself. */
  lemma SmallTrees<D>(a: D, b: D, c: D, h: (D, D) -> D, zero: D)
    ensures Root([], h, zero) == zero && Root([a], h, zero) == a
    ensures Root([a, b], h, zero) == h(a, b)
    ensures Root([a, b, c], h, zero) == h(h(a, b), h(c, c))
  {
    TwoLeaves(a, b, h, zero);
    TwoLeaves(h(a, b), h(c, c), h, zero);
    assert [a, b, c] + [c] == [a, b, c, c];
    assert Level([a, b, c], h) == [h(a, b), h(c, c)];
    RootOfLevel([a, b, c], h, zero);
  }
}
