/**
 The two-thirds threshold of the producers' authority, and the block number that
 the header state derives with it: calc_dpos_last_irreversible sorts what the
 producers imply to be irreversible and takes the entry a third of the way up.
 */
module Quorum {

  /** expected_threshold */
  function Threshold(n: nat): nat {
    2 * n / 3 + 1
  }

  /** How many producers may misbehave. */
  function Faulty(n: nat): nat
    requires n > 0
  {
    (n - 1) / 3
  }

  /** The least number above two thirds: all but fewer than a third meet it, and just so. */
  lemma ThresholdForm(n: nat)
    requires n > 0
    ensures 2 * n < 3 * Threshold(n) <= 2 * n + 3
    ensures 3 * Faulty(n) < n <= 3 * Faulty(n) + 3
    ensures Threshold(n) == n - Faulty(n)
    ensures 2 * Threshold(n) - n > Faulty(n)
  {
  }

  /** Any two groups that meet the threshold share more producers than may be faulty. */
  lemma QuorumsIntersect<P>(producers: set<P>, a: set<P>, b: set<P>)
    requires producers != {} && a <= producers && b <= producers
    requires |a| >= Threshold(|producers|) && |b| >= Threshold(|producers|)
    ensures |a * b| > Faulty(|producers|)
  {
    ThresholdForm(|producers|);
    SubsetSize(a + b, producers);
  }

  /** Without the faulty ones the others can still meet the threshold. */
  lemma CorrectOnesSuffice<P>(producers: set<P>, faulty: set<P>)
    requires producers != {} && faulty <= producers && |faulty| <= Faulty(|producers|)
    ensures |producers - faulty| >= Threshold(|producers|)
  {
    ThresholdForm(|producers|);
  }

  lemma SubsetSize<P>(a: set<P>, b: set<P>)
    requires a <= b
    ensures |a| <= |b|
  {
    assert b == a + (b - a);
  }

  // ---------------------------------------------------------------------
  // The last irreversible block
  // ---------------------------------------------------------------------

  /** The producers (numbered) that imply at least block number v. */
  function Supporters(implied: seq<nat>, v: nat): set<nat> {
    set i | 0 <= i < |implied| && implied[i] >= v
  }

  /** The permutation that std::sort performs on the values. */
  ghost predicate Sorting(implied: seq<nat>, order: seq<nat>) {
    && |order| == |implied|
    && (forall i | 0 <= i < |order| :: order[i] < |implied|)
    && (forall i, j | 0 <= i < j < |order| :: order[i] != order[j])
    && (forall i, j | 0 <= i <= j < |order| :: implied[order[i]] <= implied[order[j]])
  }

  /** The order that inserting the producers one after the other gives. */
  function SortingOf(implied: seq<nat>): (order: seq<nat>)
    ensures Sorting(implied, order)
  {
    if implied == [] then []
    else
      var n := |implied| - 1;
      var order := SortingOf(implied[..n]);
      var k := Place(implied, order, implied[n]);
      Inserted(implied, order, k);
      order[..k] + [n] + order[k..]
  }

  /** How many of the sorted producers stay in front of value v. */
  function Place(implied: seq<nat>, order: seq<nat>, v: nat): (k: nat)
    requires forall i | 0 <= i < |order| :: order[i] < |implied|
    ensures k <= |order|
    ensures k > 0 ==> implied[order[k - 1]] <= v
    ensures forall i | k <= i < |order| :: implied[order[i]] > v
  {
    if order == [] || implied[order[|order| - 1]] <= v then |order|
    else Place(implied, order[..|order| - 1], v)
  }

  lemma Inserted(implied: seq<nat>, order: seq<nat>, k: nat)
    requires implied != [] && Sorting(implied[..|implied| - 1], order) && k <= |order|
    requires k > 0 ==> implied[order[k - 1]] <= implied[|implied| - 1]
    requires forall i | k <= i < |order| :: implied[order[i]] > implied[|implied| - 1]
    ensures Sorting(implied, order[..k] + [|implied| - 1] + order[k..])
  {
    var n := |implied| - 1;
    var r := order[..k] + [n] + order[k..];
    forall i, j | 0 <= i <= j < |r|
      ensures r[i] < |implied| && r[j] < |implied| && implied[r[i]] <= implied[r[j]] && (i < j ==> r[i] != r[j])
    {
      assert r[i] == At(order, k, n, i) && r[j] == At(order, k, n, j);
      InsertedInOrder(implied, order, k, i, j);
    }
  }

  /** The producer at place i once producer n has been inserted at place k. */
  function At(order: seq<nat>, k: nat, n: nat, i: nat): nat
    requires k <= |order| && i <= |order|
  {
    if i < k then order[i] else if i == k then n else order[i - 1]
  }

  lemma InsertedInOrder(implied: seq<nat>, order: seq<nat>, k: nat, i: nat, j: nat)
    requires implied != [] && Sorting(implied[..|implied| - 1], order) && k <= |order| && i <= j <= |order|
    requires k > 0 ==> implied[order[k - 1]] <= implied[|implied| - 1]
    requires forall p | k <= p < |order| :: implied[order[p]] > implied[|implied| - 1]
    ensures var n := |implied| - 1;
            && At(order, k, n, i) <= n && At(order, k, n, j) <= n
            && implied[At(order, k, n, i)] <= implied[At(order, k, n, j)]
            && (i < j ==> At(order, k, n, i) != At(order, k, n, j))
  {
    if i < k {
      InOrder(implied, order, i, k - 1);
    }
    if i != k && j != k {
      InOrder(implied, order, if i < k then i else i - 1, if j < k then j else j - 1);
    }
  }

  lemma InOrder(implied: seq<nat>, order: seq<nat>, i: nat, j: nat)
    requires implied != [] && Sorting(implied[..|implied| - 1], order) && i <= j < |order|
    ensures order[i] < |implied| - 1 && order[j] < |implied| - 1 && implied[order[i]] <= implied[order[j]]
  {
    var front := implied[..|implied| - 1];
    assert front[order[i]] <= front[order[j]];
  }

  function LastIrreversible(implied: seq<nat>, order: seq<nat>): nat
    requires Sorting(implied, order)
  {
    if implied == [] then 0 else implied[order[(|implied| - 1) / 3]]
  }

  function Elements(s: seq<nat>): set<nat> {
    set i | 0 <= i < |s| :: s[i]
  }

  lemma {:induction false} DistinctSize(s: seq<nat>)
    requires forall i, j | 0 <= i < j < |s| :: s[i] != s[j]
    ensures |Elements(s)| == |s|
  {
    if s != [] {
      var k := |s| - 1;
      DistinctSize(s[..k]);
      assert Elements(s) == Elements(s[..k]) + {s[k]};
      assert s[k] !in Elements(s[..k]);
    }
  }

  lemma {:induction false} WithinRange(s: set<nat>, n: nat)
    requires forall x | x in s :: x < n
    ensures |s| <= n
    decreases n
  {
    if n > 0 {
      WithinRange(s - {n - 1}, n - 1);
      SubsetSize(s, s - {n - 1} + {n - 1});
    } else {
      assert s == {};
    }
  }

  /** A sorting lists every producer. */
  lemma SortingCovers(implied: seq<nat>, order: seq<nat>, i: nat)
    requires Sorting(implied, order) && i < |implied|
    ensures i in Elements(order)
  {
    DistinctSize(order);
    if i !in Elements(order) {
      WithinRange(Elements(order) + {i}, |implied|);
    }
  }

  /** The producers from place k of the order on support the value at place k. */
  lemma SupportAt(implied: seq<nat>, order: seq<nat>, k: nat)
    requires Sorting(implied, order) && k < |implied|
    ensures |Supporters(implied, implied[order[k]])| >= |implied| - k
  {
    DistinctSize(order[k..]);
    assert Elements(order[k..]) <= Supporters(implied, implied[order[k]]);
    SubsetSize(Elements(order[k..]), Supporters(implied, implied[order[k]]));
  }

  /** Fewer than those support any greater value. */
  lemma SupportAbove(implied: seq<nat>, order: seq<nat>, k: nat, w: nat)
    requires Sorting(implied, order) && k < |implied| && w > implied[order[k]]
    ensures |Supporters(implied, w)| < |implied| - k
  {
    var upper := order[k + 1..];
    DistinctSize(upper);
    forall i | i in Supporters(implied, w) ensures i in Elements(upper) {
      SortingCovers(implied, order, i);
      var p :| 0 <= p < |order| && order[p] == i;
      assert p > k;
      assert upper[p - (k + 1)] == i;
    }
    SubsetSize(Supporters(implied, w), Elements(upper));
  }

  /** The last irreversible block number is the greatest one that a two-thirds quorum implies. */
  lemma LastIrreversibleIsQuorumMaximum(implied: seq<nat>, order: seq<nat>)
    requires Sorting(implied, order) && implied != []
    ensures var lib := LastIrreversible(implied, order);
            && |Supporters(implied, lib)| >= Threshold(|implied|)
            && forall w | w > lib :: |Supporters(implied, w)| < Threshold(|implied|)
  {
    var k := Faulty(|implied|);
    var lib := LastIrreversible(implied, order);
    ThresholdForm(|implied|);
    SupportAt(implied, order, k);
    forall w | w > lib ensures |Supporters(implied, w)| < Threshold(|implied|) {
      SupportAbove(implied, order, k, w);
    }
  }

  /** The result does not depend on how equal values are ordered. */
  lemma LastIrreversibleUnique(implied: seq<nat>, order: seq<nat>)
    requires Sorting(implied, order)
    ensures LastIrreversible(implied, order) == LastIrreversible(implied, SortingOf(implied))
    ensures implied == [] ==> LastIrreversible(implied, order) == 0
  {
    LastIrreversibleMonotone(implied, order, implied, SortingOf(implied));
    LastIrreversibleMonotone(implied, SortingOf(implied), implied, order);
  }

  /** It never falls back while the producers' values only grow. */
  lemma LastIrreversibleMonotone(implied: seq<nat>, order: seq<nat>, implied': seq<nat>, order': seq<nat>)
    requires Sorting(implied, order) && Sorting(implied', order') && |implied| == |implied'|
    requires forall i | 0 <= i < |implied| :: implied[i] <= implied'[i]
    ensures LastIrreversible(implied, order) <= LastIrreversible(implied', order')
  {
    if implied != [] {
      var lib := LastIrreversible(implied, order);
      LastIrreversibleIsQuorumMaximum(implied, order);
      LastIrreversibleIsQuorumMaximum(implied', order');
      SubsetSize(Supporters(implied, lib), Supporters(implied', lib));
    }
  }

  /** Two last irreversible numbers, from two views of the same producers, have a common supporter that is not faulty. */
  lemma SharedSupporter(implied: seq<nat>, order: seq<nat>, implied': seq<nat>, order': seq<nat>, faulty: set<nat>)
    returns (p: nat)
    requires Sorting(implied, order) && Sorting(implied', order') && |implied| == |implied'| > 0
    requires |faulty| <= Faulty(|implied|)
    ensures p < |implied| && p !in faulty
    ensures implied[p] >= LastIrreversible(implied, order) && implied'[p] >= LastIrreversible(implied', order')
  {
    var all := Range(|implied|);
    var a := Supporters(implied, LastIrreversible(implied, order));
    var b := Supporters(implied', LastIrreversible(implied', order'));
    LastIrreversibleIsQuorumMaximum(implied, order);
    LastIrreversibleIsQuorumMaximum(implied', order');
    QuorumsIntersect(all, a, b);
    Surplus(a * b, faulty);
    p :| p in a * b - faulty;
  }

  lemma Surplus(a: set<nat>, b: set<nat>)
    requires |a| > |b|
    ensures a - b != {}
  {
    assert !(a <= b) by {
      if a <= b { SubsetSize(a, b); }
    }
    var x :| x in a && x !in b;
    assert x in a - b;
  }

  function Range(n: nat): (s: set<nat>)
    ensures |s| == n
    ensures forall i: nat :: i in s <==> i < n
  {
    if n == 0 then {} else Range(n - 1) + {n - 1}
  }
}
