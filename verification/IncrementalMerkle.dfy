/**
 incremental_merkle: appends leaves without keeping the tree. After any appends its
 root is the root that merkle() computes from all leaves.
 */
module IncrementalMerkle {
  import opened MerkleTree
  import opened BitTricks

  /** The old nodes that are still to be read begin with those the level waits for. */
  ghost predicate Readable<D>(level: seq<D>, unread: seq<D>, h: (D, D) -> D) {
    Waiting(level, h) <= unread
  }

  /**
   One level of the collapse: level holds the complete nodes of the level, top the node after
   them, which is partial when it stands for leaves that do not exist yet. The root, and the
   nodes that the new leaf count will wait for, are those of the whole tree.
   */
  ghost predicate Collapsing<D>(level: seq<D>, top: D, partial: bool, kept: seq<D>,
                                ids: seq<D>, h: (D, D) -> D, zero: D)
  {
    && Root(level + [top], h, zero) == Root(ids, h, zero)
    && kept + Coming(level, top, partial, h) == Waiting(ids, h)
  }

  /** The nodes that this level and those above it will add to the new active nodes. */
  ghost function Coming<D>(level: seq<D>, top: D, partial: bool, h: (D, D) -> D): seq<D> {
    if partial then Waiting(level, h) else Waiting(level + [top], h)
  }

  lemma ComingLeft<D>(level: seq<D>, top: D, partial: bool, h: (D, D) -> D)
    requires |level| % 2 == 0
    ensures Coming(level, top, partial, h) ==
            (if partial then [] else [top]) + Coming(Pairs(level, h), h(top, top), true, h)
  {
    if partial {
      WaitingOfEven(level, h);
    } else {
      WaitingOfOdd(level + [top], h);
      PairsOfEven(level, top, h);
    }
  }

  lemma ComingRight<D>(level: seq<D>, top: D, partial: bool, h: (D, D) -> D)
    requires |level| % 2 == 1
    ensures var left := level[|level| - 1];
            Coming(level, top, partial, h) ==
            (if partial then [left] else []) + Coming(Pairs(level, h), h(left, top), partial, h)
  {
    if partial {
      WaitingOfOdd(level, h);
    } else {
      WaitingOfEven(level + [top], h);
      PairsOfOdd(level, top, h);
    }
  }

  lemma Regroup<D>(a: seq<D>, b: seq<D>, c: seq<D>)
    ensures a + (b + c) == a + b + c
  {
  }

  /** From a left node: its implied partner is a copy of itself. */
  lemma CollapseLeft<D>(level: seq<D>, top: D, partial: bool, kept: seq<D>, ids: seq<D>, h: (D, D) -> D, zero: D)
    requires Collapsing(level, top, partial, kept, ids, h, zero) && level != [] && |level| % 2 == 0
    ensures Collapsing(Pairs(level, h), h(top, top), true, kept + (if partial then [] else [top]), ids, h, zero)
  {
    PairsOfEven(level, top, h);
    RootOfLevel(level + [top], h, zero);
    ComingLeft(level, top, partial, h);
    Regroup(kept, if partial then [] else [top], Coming(Pairs(level, h), h(top, top), true, h));
  }

  /** From a right node: its partner is the last complete node of the level. */
  lemma CollapseRight<D>(level: seq<D>, top: D, partial: bool, kept: seq<D>, ids: seq<D>, h: (D, D) -> D, zero: D)
    requires Collapsing(level, top, partial, kept, ids, h, zero) && |level| % 2 == 1
    ensures var left := level[|level| - 1];
            Collapsing(Pairs(level, h), h(left, top), partial, kept + (if partial then [left] else []), ids, h, zero)
  {
    var left := level[|level| - 1];
    PairsOfOdd(level, top, h);
    RootOfLevel(level + [top], h, zero);
    ComingRight(level, top, partial, h);
    Regroup(kept, if partial then [left] else [], Coming(Pairs(level, h), h(left, top), partial, h));
  }

  lemma ReadLeft<D>(level: seq<D>, unread: seq<D>, h: (D, D) -> D)
    requires |level| % 2 == 0 && Readable(level, unread, h)
    ensures Readable(Pairs(level, h), unread, h)
  {
    WaitingOfEven(level, h);
  }

  lemma ReadRight<D>(level: seq<D>, unread: seq<D>, h: (D, D) -> D)
    requires |level| % 2 == 1 && Readable(level, unread, h)
    ensures unread != [] && unread[0] == level[|level| - 1]
    ensures Readable(Pairs(level, h), unread[1..], h)
  {
    WaitingOfOdd(level, h);
    var w := Waiting(level, h);
    assert w[1..] == Waiting(Pairs(level, h), h);
    assert unread[0] == w[0];
    assert w[1..] <= unread[1..];
  }

  lemma CollapseDone<D>(level: seq<D>, top: D, partial: bool, kept: seq<D>, ids: seq<D>, h: (D, D) -> D, zero: D)
    requires level == [] && Collapsing(level, top, partial, kept, ids, h, zero)
    ensures top == Root(ids, h, zero)
    ensures Waiting(ids, h) <= kept + [top]
  {
    assert level + [top] == [top];
    SingleNode(top, h, zero);
  }

  class Tree<D(!new)> {
    const hash: (D, D) -> D
    const zero: D
    var nodeCount: bv64
    var activeNodes: seq<D>
    ghost var ids: seq<D>

    ghost predicate Valid()
      reads this
    {
      && Value(nodeCount) == |ids|
      && Waiting(ids, hash) <= activeNodes
      && (ids != [] ==> activeNodes != [] && activeNodes[|activeNodes| - 1] == Root(ids, hash, zero))
    }

    constructor (hash: (D, D) -> D, zero: D)
      ensures Valid() && ids == [] && this.hash == hash && this.zero == zero
    {
      this.hash, this.zero := hash, zero;
      nodeCount, activeNodes, ids := 0, [], [];
    }

    /** With 2^64 - 1 leaves the count wraps, and the tree starts over. */
    method Append(digest: D) returns (root: D)
      requires Valid()
      modifies this
      ensures Valid()
      ensures !old(Full()) ==> ids == old(ids) + [digest] && root == Root(ids, hash, zero)
      ensures old(Full()) ==> nodeCount == 0 && ids == [] && activeNodes == [digest] && root == digest
    {
      var updatedActiveNodes, top := Collapse(digest);
      ghost var full, before := Full(), nodeCount;
      activeNodes := updatedActiveNodes + [top];
      nodeCount := nodeCount + 1;
      if full {
        WrapsToZero(before);
        ids := [];
      } else {
        ValueOfSuccessor(before);
        ids := ids + [digest];
      }
      root := activeNodes[|activeNodes| - 1];
    }

    predicate Full()
      reads this
    {
      nodeCount == 0xFFFF_FFFF_FFFF_FFFF
    }

    /** The loop of append. */
    method Collapse(digest: D) returns (updatedActiveNodes: seq<D>, top: D)
      requires Valid()
      ensures !Full() ==> top == Root(ids + [digest], hash, zero)
      ensures !Full() ==> Waiting(ids + [digest], hash) <= updatedActiveNodes + [top]
      ensures Full() ==> top == digest && updatedActiveNodes == []
    {
      var partial := false;
      ghost var full := Full();
      var currentDepth := StartDepth(nodeCount);
      var index := nodeCount;
      top := digest;
      var activeIter := 0;
      updatedActiveNodes := [];
      ghost var level := ids;
      assert [] + Waiting(ids + [digest], hash) == Waiting(ids + [digest], hash);
      while currentDepth > 0
        invariant full ==> currentDepth < 0 && top == digest && updatedActiveNodes == []
        invariant !full ==> currentDepth == BitLength(index) && Value(index) == |level|
        invariant 0 <= activeIter <= |activeNodes|
        invariant !full ==> Readable(level, activeNodes[activeIter..], hash)
        invariant !full ==> Collapsing(level, top, partial, updatedActiveNodes, ids + [digest], hash, zero)
        decreases currentDepth
      {
        IndexStep(index);
        var isLeft := index & 0x1 == 0;
        top, partial, activeIter, updatedActiveNodes :=
          Round(isLeft, top, partial, activeIter, updatedActiveNodes, level, ids + [digest]);
        level := Pairs(level, hash);
        currentDepth := currentDepth - 1;
        index := index >> 1;
      }
      if !full {
        IndexStep(index);
        CollapseDone(level, top, partial, updatedActiveNodes, ids + [digest], hash, zero);
      }
    }

    method Round(isLeft: bool, top: D, partial: bool, activeIter: nat, updatedActiveNodes: seq<D>,
                 ghost level: seq<D>, ghost all: seq<D>)
      returns (top': D, partial': bool, activeIter': nat, updatedActiveNodes': seq<D>)
      requires level != [] && isLeft == (|level| % 2 == 0)
      requires activeIter <= |activeNodes| && Readable(level, activeNodes[activeIter..], hash)
      requires Collapsing(level, top, partial, updatedActiveNodes, all, hash, zero)
      ensures activeIter' <= |activeNodes| && Readable(Pairs(level, hash), activeNodes[activeIter'..], hash)
      ensures Collapsing(Pairs(level, hash), top', partial', updatedActiveNodes', all, hash, zero)
    {
      partial', activeIter', updatedActiveNodes' := partial, activeIter, updatedActiveNodes;
      if isLeft {
        CollapseLeft(level, top, partial, updatedActiveNodes, all, hash, zero);
        ReadLeft(level, activeNodes[activeIter..], hash);
        if !partial {
          updatedActiveNodes' := updatedActiveNodes + [top];
        } else {
          assert updatedActiveNodes + [] == updatedActiveNodes;
        }
        top' := hash(top, top);
        partial' := true;
      } else {
        CollapseRight(level, top, partial, updatedActiveNodes, all, hash, zero);
        ReadRight(level, activeNodes[activeIter..], hash);
        var leftValue := activeNodes[activeIter];
        assert activeNodes[activeIter..][1..] == activeNodes[activeIter + 1..];
        activeIter' := activeIter + 1;
        if partial {
          updatedActiveNodes' := updatedActiveNodes + [leftValue];
        } else {
          assert updatedActiveNodes + [] == updatedActiveNodes;
        }
        top' := hash(leftValue, top);
      }
    }

    method GetRoot() returns (root: D)
      requires Valid()
      ensures root == Root(ids, hash, zero)
    {
      IndexStep(nodeCount);
      if nodeCount > 0 {
        root := activeNodes[|activeNodes| - 1];
      } else {
        root := zero;
      }
    }
  }

  lemma WrapsToZero(n: bv64)
    requires n == 0xFFFF_FFFF_FFFF_FFFF
    ensures n + 1 == 0 && Value(n + 1) == 0
  {
  }

  /** The number of levels above the leaves of a tree with one more leaf; -1 when the count wraps. */
  method StartDepth(nodeCount: bv64) returns (currentDepth: int)
    ensures nodeCount == 0xFFFF_FFFF_FFFF_FFFF ==> currentDepth == -1
    ensures nodeCount != 0xFFFF_FFFF_FFFF_FFFF ==> currentDepth == BitLength(nodeCount)
  {
    var count := nodeCount + 1;
    if nodeCount != 0xFFFF_FFFF_FFFF_FFFF {
      assert count != 0 && count - 1 == nodeCount;
      DepthIsBitLength(nodeCount, count);
    }
    var maxDepth := CalculateMaxDepth(count);
    currentDepth := maxDepth - 1;
  }
}
