/**
 The forks that the test fork_with_bad_block builds: from one honest chain, for
 every position a chain whose block at that position is corrupted and whose later
 blocks are linked and signed anew. Hashing and signing are parameters; a block
 merkle is represented by its leaves.
 */
module Forks {
  import opened MerkleTree

  datatype Digest = Digest(w0: bv64, w1: bv64, w2: bv64, w3: bv64)

  /** The header fields that the loop changes, and all others together. */
  datatype Header = Header(previous: Digest, actionMroot: Digest, others: string)

  datatype Block = Block(header: Header, signature: string)

  /** id leaves the signature out, as block_header::id does. */
  datatype Crypto = Crypto(id: Header -> Digest, digest: Header -> Digest, pair: (Digest, Digest) -> Digest,
                           node: (Digest, Digest) -> Digest, zero: Digest, sign: Digest -> string)

  /** action_mroot._hash[0] ^= 1 */
  function Corrupt(h: Header): Header {
    h.(actionMroot := h.actionMroot.(w0 := h.actionMroot.w0 ^ 1))
  }

  /** What a producer signs: the header, the root over the ids of all blocks before it, and the schedule. */
  function SigDigest(h: Header, leaves: seq<Digest>, schedule: Digest, c: Crypto): Digest {
    c.pair(c.pair(c.digest(h), Root(leaves, c.node, c.zero)), schedule)
  }

  function Signed(h: Header, leaves: seq<Digest>, schedule: Digest, c: Crypto): Block {
    Block(h, c.sign(SigDigest(h, leaves, schedule, c)))
  }

  function Ids(blocks: seq<Block>, c: Crypto): (r: seq<Digest>)
    ensures |r| == |blocks|
  {
    seq(|blocks|, i requires 0 <= i < |blocks| => c.id(blocks[i].header))
  }

  // ---------------------------------------------------------------------
  // Specification of one fork
  // ---------------------------------------------------------------------

  /** The chain the remote node produced: base holds the ids before it, schedules the pending schedule at each block. */
  datatype Chain = Chain(base: seq<Digest>, blocks: seq<Block>, schedules: seq<Digest>)

  predicate LinkedAt(blocks: seq<Block>, i: nat, c: Crypto)
    requires 0 < i < |blocks|
  {
    blocks[i].header.previous == c.id(blocks[i - 1].header)
  }

  predicate Linked(blocks: seq<Block>, c: Crypto) {
    forall i | 0 < i < |blocks| :: LinkedAt(blocks, i, c)
  }

  /** Block i carries the signature that its header and its predecessors call for. */
  predicate SignedAt(base: seq<Digest>, blocks: seq<Block>, schedules: seq<Digest>, i: nat, c: Crypto)
    requires i < |blocks| <= |schedules|
  {
    blocks[i].signature == c.sign(SigDigest(blocks[i].header, base + Ids(blocks[..i], c), schedules[i], c))
  }

  predicate Honest(chain: Chain, c: Crypto) {
    && |chain.schedules| == |chain.blocks|
    && Linked(chain.blocks, c)
    && forall i | 0 <= i < |chain.blocks| :: SignedAt(chain.base, chain.blocks, chain.schedules, i, c)
  }

  /** The first n blocks of the fork corrupted at j. */
  function Fork(chain: Chain, j: nat, n: nat, c: Crypto): (r: seq<Block>)
    requires n <= |chain.blocks| == |chain.schedules|
    ensures |r| == n
  {
    if n == 0 then []
    else
      var before, b := Fork(chain, j, n - 1, c), chain.blocks[n - 1];
      before + [ForkBlock(before, b, chain.base, chain.schedules[n - 1], j, c)]
  }

  function ForkBlock(before: seq<Block>, b: Block, base: seq<Digest>, schedule: Digest, j: nat, c: Crypto): Block {
    var i := |before|;
    if i < j then b
    else if i == j then Signed(Corrupt(b.header), base + Ids(before, c), schedule, c)
    else Signed(b.header.(previous := c.id(before[i - 1].header)), base + Ids(before, c), schedule, c)
  }

  // ---------------------------------------------------------------------
  // The nested loop
  // ---------------------------------------------------------------------

  /** fork_tracker */
  datatype ForkTracker = ForkTracker(blocks: seq<Block>, merkleLeaves: seq<Digest>)

  /** The tracker of fork j after n blocks; its merkle is only used once the fork has left the chain. */
  ghost predicate Tracks(t: ForkTracker, chain: Chain, j: nat, n: nat, c: Crypto)
    requires n <= |chain.blocks| == |chain.schedules|
  {
    && t.blocks == Fork(chain, j, n, c)
    && (j < n ==> t.merkleLeaves == chain.base + Ids(t.blocks, c))
  }

  method BuildForks(chain: Chain, c: Crypto) returns (forks: seq<ForkTracker>)
    requires |chain.schedules| == |chain.blocks|
    ensures |forks| == |chain.blocks|
    ensures forall j | 0 <= j < |forks| :: forks[j].blocks == Fork(chain, j, |chain.blocks|, c)
  {
    var count := |chain.blocks|;
    forks := seq(count, _ => ForkTracker([], []));
    var i := 0;
    while i < count
      invariant 0 <= i <= count && |forks| == count
      invariant forall j | 0 <= j < count :: Tracks(forks[j], chain, j, i, c)
    {
      var headMerkle := chain.base + Ids(chain.blocks[..i], c);
      var j := 0;
      while j < count
        invariant 0 <= j <= count && |forks| == count
        invariant forall k | 0 <= k < j :: Tracks(forks[k], chain, k, i + 1, c)
        invariant forall k | j <= k < count :: Tracks(forks[k], chain, k, i, c)
      {
        var fork := Extend(forks[j], chain, headMerkle, i, j, c);
        forks := forks[j := fork];
        j := j + 1;
      }
      i := i + 1;
    }
  }

  /** The body of the inner loop. */
  method Extend(fork: ForkTracker, chain: Chain, headMerkle: seq<Digest>, i: nat, j: nat, c: Crypto)
    returns (fork': ForkTracker)
    requires i < |chain.blocks| == |chain.schedules|
    requires headMerkle == chain.base + Ids(chain.blocks[..i], c)
    requires Tracks(fork, chain, j, i, c)
    ensures Tracks(fork', chain, j, i + 1, c)
  {
    var b, merkle := chain.blocks[i], fork.merkleLeaves;
    if j <= i {
      var header := b.header;
      if j == i {
        merkle := headMerkle;
        header := Corrupt(header);
        ForkPrefix(chain, j, i, c);
      } else {
        header := header.(previous := c.id(fork.blocks[|fork.blocks| - 1].header));
      }
      var copy := Signed(header, merkle, chain.schedules[i], c);
      assert copy == ForkBlock(fork.blocks, b, chain.base, chain.schedules[i], j, c);
      IdsSnoc(chain.base, fork.blocks, copy, c);
      merkle := merkle + [c.id(copy.header)];
      fork' := ForkTracker(fork.blocks + [copy], merkle);
    } else {
      fork' := fork.(blocks := fork.blocks + [b]);
    }
  }

  lemma IdsSnoc(base: seq<Digest>, blocks: seq<Block>, b: Block, c: Crypto)
    ensures base + Ids(blocks + [b], c) == base + Ids(blocks, c) + [c.id(b.header)]
  {
  }

  // ---------------------------------------------------------------------
  // What the forks look like
  // ---------------------------------------------------------------------

  /** Up to position j the fork is the honest chain. */
  lemma {:induction false} ForkPrefix(chain: Chain, j: nat, n: nat, c: Crypto)
    requires n <= |chain.blocks| == |chain.schedules| && n <= j
    ensures Fork(chain, j, n, c) == chain.blocks[..n]
  {
    if n > 0 {
      ForkPrefix(chain, j, n - 1, c);
      assert chain.blocks[..n] == chain.blocks[..n - 1] + [chain.blocks[n - 1]];
    }
  }

  lemma {:induction false} ForkTake(chain: Chain, j: nat, i: nat, n: nat, c: Crypto)
    requires i <= n <= |chain.blocks| == |chain.schedules|
    ensures Fork(chain, j, n, c)[..i] == Fork(chain, j, i, c)
  {
    var f := Fork(chain, j, n, c);
    if i == n {
      assert f[..i] == f;
    } else {
      ForkTake(chain, j, i, n - 1, c);
      assert f[..i] == Fork(chain, j, n - 1, c)[..i];
    }
  }

  /** Block i of the fork in terms of the blocks before it. */
  lemma ForkAt(chain: Chain, j: nat, i: nat, n: nat, c: Crypto)
    requires i < n <= |chain.blocks| == |chain.schedules|
    ensures var f := Fork(chain, j, n, c);
            f[i] == ForkBlock(f[..i], chain.blocks[i], chain.base, chain.schedules[i], j, c)
  {
    ForkTake(chain, j, i, n, c);
    ForkTake(chain, j, i + 1, n, c);
    assert Fork(chain, j, n, c)[i] == Fork(chain, j, i + 1, c)[i];
  }

  /** The header of block i: honest, corrupted, or linked to the fork. */
  lemma ForkHeader(chain: Chain, j: nat, i: nat, n: nat, c: Crypto)
    requires i < n <= |chain.blocks| == |chain.schedules|
    ensures var f, b := Fork(chain, j, n, c), chain.blocks[i].header;
            f[i].header == if i < j then b else if i == j then Corrupt(b) else b.(previous := c.id(f[i - 1].header))
  {
    ForkAt(chain, j, i, n, c);
  }

  /** Every fork is correctly linked. */
  lemma ForkLinked(chain: Chain, j: nat, n: nat, c: Crypto)
    requires Honest(chain, c) && n <= |chain.blocks|
    ensures Linked(Fork(chain, j, n, c), c)
  {
    var f := Fork(chain, j, n, c);
    forall i | 0 < i < n ensures LinkedAt(f, i, c) {
      ForkHeader(chain, j, i, n, c);
      ForkHeader(chain, j, i - 1, n, c);
      assert LinkedAt(chain.blocks, i, c);
    }
  }

  /** Every block of every fork carries the signature its own fork calls for. */
  lemma ForkSigned(chain: Chain, j: nat, i: nat, n: nat, c: Crypto)
    requires Honest(chain, c) && i < n <= |chain.blocks|
    ensures SignedAt(chain.base, Fork(chain, j, n, c), chain.schedules, i, c)
  {
    ForkAt(chain, j, i, n, c);
    if i < j {
      ForkTake(chain, j, i, n, c);
      ForkPrefix(chain, j, i, c);
      assert SignedAt(chain.base, chain.blocks, chain.schedules, i, c);
    }
  }

  /**
   What each signature of a fork signs, written out: the header with the root over all ids before
   it, and that with the schedule.
   */
  lemma ForkSignature(chain: Chain, j: nat, i: nat, n: nat, c: Crypto)
    requires Honest(chain, c) && i < n <= |chain.blocks|
    ensures var f := Fork(chain, j, n, c);
            var before := chain.base + seq(i, k requires 0 <= k < i => c.id(f[k].header));
            f[i].signature ==
            c.sign(c.pair(c.pair(c.digest(f[i].header), Root(before, c.node, c.zero)), chain.schedules[i]))
  {
    var f := Fork(chain, j, n, c);
    ForkSigned(chain, j, i, n, c);
    assert Ids(f[..i], c) == seq(i, k requires 0 <= k < i => c.id(f[k].header));
  }

  /** Only the action root of the j-th block and the links behind it differ from the honest headers. */
  lemma ForkChangesOnly(chain: Chain, j: nat, i: nat, n: nat, c: Crypto)
    requires Honest(chain, c) && i < n <= |chain.blocks|
    ensures var h, b := Fork(chain, j, n, c)[i].header, chain.blocks[i].header;
            && h.others == b.others
            && (h.actionMroot == b.actionMroot <==> i != j)
            && (i == j ==> h.actionMroot == Digest(b.actionMroot.w0 ^ 1, b.actionMroot.w1, b.actionMroot.w2, b.actionMroot.w3))
            && (i > j ==> h.previous == c.id(Fork(chain, j, n, c)[i - 1].header))
            && (i <= j ==> h.previous == b.previous)
  {
    ForkHeader(chain, j, i, n, c);
    CorruptDiffers(chain.blocks[i].header);
  }

  lemma CorruptDiffers(h: Header)
    ensures Corrupt(h).actionMroot != h.actionMroot
  {
    assert h.actionMroot.w0 ^ 1 != h.actionMroot.w0;
  }

  /** At place i two different headers have the same id. */
  predicate Collides(x: seq<Block>, y: seq<Block>, i: nat, c: Crypto)
    requires i < |x| && i < |y|
  {
    x[i].header != y[i].header && c.id(x[i].header) == c.id(y[i].header)
  }

  predicate CollidesWithin(x: seq<Block>, y: seq<Block>, from: nat, to: nat, c: Crypto)
    requires to < |x| == |y|
  {
    exists k :: from <= k <= to && Collides(x, y, k, c)
  }

  predicate NoCollision(x: seq<Block>, y: seq<Block>, from: nat, c: Crypto)
    requires |x| == |y|
  {
    forall i | from <= i < |x| :: !Collides(x, y, i, c)
  }

  predicate IdsDiffer(x: seq<Block>, y: seq<Block>, from: nat, c: Crypto)
    requires |x| == |y|
  {
    forall i | from <= i < |x| :: c.id(x[i].header) != c.id(y[i].header)
  }

  /** In two linked chains that differ at one place, equal ids later on come from a collision in between. */
  lemma {:induction false} DivergedOrCollided(x: seq<Block>, y: seq<Block>, from: nat, i: nat, c: Crypto)
    requires |x| == |y| && Linked(x, c) && Linked(y, c)
    requires from <= i < |x| && x[from].header != y[from].header
    ensures c.id(x[i].header) != c.id(y[i].header) || CollidesWithin(x, y, from, i, c)
    decreases i
  {
    if from < i {
      DivergedOrCollided(x, y, from, i - 1, c);
      assert LinkedAt(x, i, c) && LinkedAt(y, i, c);
    }
    if c.id(x[i].header) == c.id(y[i].header) && x[i].header != y[i].header {
      assert Collides(x, y, i, c);
    }
  }

  lemma DivergedForGoodIff(x: seq<Block>, y: seq<Block>, from: nat, c: Crypto)
    requires |x| == |y| && Linked(x, c) && Linked(y, c)
    requires from < |x| && x[from].header != y[from].header
    ensures IdsDiffer(x, y, from, c) <==> NoCollision(x, y, from, c)
  {
    if NoCollision(x, y, from, c) {
      forall i | from <= i < |x| ensures c.id(x[i].header) != c.id(y[i].header) {
        DivergedOrCollided(x, y, from, i, c);
      }
    }
  }

  lemma ForkDiffersAt(chain: Chain, j: nat, n: nat, c: Crypto)
    requires j < n <= |chain.blocks| == |chain.schedules|
    ensures Fork(chain, j, n, c)[j].header != chain.blocks[j].header
  {
    ForkHeader(chain, j, j, n, c);
    CorruptDiffers(chain.blocks[j].header);
  }

  /**
   From the corrupted block on, every block has another id than its honest counterpart, exactly
   when no two counterparts collide; and up to the first collision it has in any case.
   */
  lemma ForkDivergesIff(chain: Chain, j: nat, c: Crypto)
    requires Honest(chain, c) && j < |chain.blocks|
    ensures var f := Fork(chain, j, |chain.blocks|, c);
            && (IdsDiffer(f, chain.blocks, j, c) <==> NoCollision(f, chain.blocks, j, c))
            && (forall i | j <= i < |f| ::
                  c.id(f[i].header) != c.id(chain.blocks[i].header) || CollidesWithin(f, chain.blocks, j, i, c))
  {
    var n := |chain.blocks|;
    var f := Fork(chain, j, n, c);
    ForkDiffersAt(chain, j, n, c);
    ForkLinked(chain, j, n, c);
    forall i | j <= i < n
      ensures c.id(f[i].header) != c.id(chain.blocks[i].header) || CollidesWithin(f, chain.blocks, j, i, c)
    {
      DivergedOrCollided(f, chain.blocks, j, i, c);
    }
    DivergedForGoodIff(Fork(chain, j, n, c), chain.blocks, j, c);
  }

  /**
   Two forks have the same blocks before the earlier corruption, and from there on no common block,
   exactly when none of their blocks collide.
   */
  lemma ForksShareIff(chain: Chain, j: nat, k: nat, n: nat, c: Crypto)
    requires Honest(chain, c) && j < k < n <= |chain.blocks|
    ensures var f, g := Fork(chain, j, n, c), Fork(chain, k, n, c);
            && f[..j] == g[..j]
            && (IdsDiffer(f, g, j, c) <==> NoCollision(f, g, j, c))
  {
    ForkTake(chain, j, j, n, c);
    ForkTake(chain, k, j, n, c);
    ForkPrefix(chain, j, j, c);
    ForkPrefix(chain, k, j, c);
    ForkDiffersAt(chain, j, n, c);
    ForkHeader(chain, k, j, n, c);
    ForkLinked(chain, j, n, c);
    ForkLinked(chain, k, n, c);
    DivergedForGoodIff(Fork(chain, j, n, c), Fork(chain, k, n, c), j, c);
  }

  // ---------------------------------------------------------------------
  // Both sides of the condition occur
  // ---------------------------------------------------------------------

  const ZERO := Digest(0, 0, 0, 0)

  /** An id made of a word of the action root and a word of the link. */
  const MIXING := Crypto((h: Header) => Digest(h.actionMroot.w0, h.previous.w0, 0, 0), (h: Header) => ZERO,
                         (a: Digest, b: Digest) => ZERO, (a: Digest, b: Digest) => ZERO, ZERO, (d: Digest) => "")

  /** An id that tells nothing. */
  const CONSTANT := MIXING.(id := (h: Header) => ZERO)

  const TWO_BLOCKS := Chain([], [Block(Header(ZERO, ZERO, ""), ""), Block(Header(ZERO, ZERO, ""), "")], [ZERO, ZERO])

  lemma TwoBlocksHonest(c: Crypto)
    requires c == MIXING || c == CONSTANT
    ensures Honest(TWO_BLOCKS, c)
  {
    assert LinkedAt(TWO_BLOCKS.blocks, 1, c);
    assert forall i | 0 <= i < 2 :: SignedAt([], TWO_BLOCKS.blocks, TWO_BLOCKS.schedules, i, c);
  }

  /** The headers of the fork of TWO_BLOCKS at its first block. */
  lemma TwoBlocksFork(c: Crypto)
    ensures var f := Fork(TWO_BLOCKS, 0, 2, c);
            && f[0].header == Header(ZERO, Digest(1, 0, 0, 0), "")
            && f[1].header == Header(c.id(f[0].header), ZERO, "")
  {
    ForkHeader(TWO_BLOCKS, 0, 0, 2, c);
    ForkHeader(TWO_BLOCKS, 0, 1, 2, c);
    assert 0 as bv64 ^ 1 == 1;
  }

  lemma ForkCanDiverge()
    ensures Honest(TWO_BLOCKS, MIXING)
    ensures NoCollision(Fork(TWO_BLOCKS, 0, 2, MIXING), TWO_BLOCKS.blocks, 0, MIXING)
    ensures IdsDiffer(Fork(TWO_BLOCKS, 0, 2, MIXING), TWO_BLOCKS.blocks, 0, MIXING)
  {
    TwoBlocksHonest(MIXING);
    TwoBlocksFork(MIXING);
    var f := Fork(TWO_BLOCKS, 0, 2, MIXING);
    assert MIXING.id(f[0].header) == Digest(1, 0, 0, 0) && MIXING.id(f[1].header) == Digest(0, 1, 0, 0);
  }

  lemma ForkCanCollide()
    ensures Honest(TWO_BLOCKS, CONSTANT)
    ensures !IdsDiffer(Fork(TWO_BLOCKS, 0, 2, CONSTANT), TWO_BLOCKS.blocks, 0, CONSTANT)
  {
    TwoBlocksHonest(CONSTANT);
    var f := Fork(TWO_BLOCKS, 0, 2, CONSTANT);
    assert CONSTANT.id(f[0].header) == CONSTANT.id(TWO_BLOCKS.blocks[0].header);
  }
}
