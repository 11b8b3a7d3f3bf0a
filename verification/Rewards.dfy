/**
 Producer pay as the system tests state it: how newly issued tokens are split, and
 what a claim takes from the two buckets. Producers are numbered; the amount issued
 by a claim and the vote share are given from outside.
 */
module Rewards {
  import opened Arith

  /** A vote payment below 100.0000 tokens stays in the bucket. */
  const MIN_PERVOTE_PAY: nat := 100 * 10000

  datatype Ledger = Ledger(supply: nat, savings: nat, perBlock: nat, perVote: nat,
                           balances: seq<nat>, unpaid: seq<nat>, totalUnpaid: nat)

  datatype Step =
    | Produce(producer: nat)
    | Claim(producer: nat, issued: nat, share: real)

  function Sum(s: seq<nat>): nat {
    if s == [] then 0 else Sum(s[..|s| - 1]) + s[|s| - 1]
  }

  predicate Consistent(l: Ledger) {
    |l.balances| == |l.unpaid| && l.totalUnpaid == Sum(l.unpaid)
  }

  predicate Allowed(l: Ledger, s: Step) {
    s.producer < |l.unpaid| && (s.Claim? ==> 0.0 <= s.share <= 1.0)
  }

  // ---------------------------------------------------------------------
  // The formulas
  // ---------------------------------------------------------------------

  function ToProducers(issued: nat): nat { issued / 5 }

  function ToPerBlock(issued: nat): nat { ToProducers(issued) / 4 }

  function FilledPerBlock(l: Ledger, issued: nat): nat { l.perBlock + ToPerBlock(issued) }

  function FilledPerVote(l: Ledger, issued: nat): nat { l.perVote + (ToProducers(issued) - ToPerBlock(issued)) }

  /** The claimant's part of the per-block bucket after it has been filled. */
  function FromPerBlock(l: Ledger, producer: nat, issued: nat): nat
    requires producer < |l.unpaid|
  {
    if l.totalUnpaid == 0 then 0 else l.unpaid[producer] * FilledPerBlock(l, issued) / l.totalUnpaid
  }

  function FromPerVote(l: Ledger, issued: nat, share: real): nat
    requires 0.0 <= share <= 1.0
  {
    FractionFloor(share, FilledPerVote(l, issued));
    var pay := (share * FilledPerVote(l, issued) as real).Floor;
    if pay >= MIN_PERVOTE_PAY then pay else 0
  }

  function Apply(l: Ledger, s: Step): Ledger
    requires Consistent(l) && Allowed(l, s)
  {
    var p := s.producer;
    match s
    case Produce(_) => l.(unpaid := l.unpaid[p := l.unpaid[p] + 1], totalUnpaid := l.totalUnpaid + 1)
    case Claim(_, issued, share) =>
      NeverOverdrawn(l, p, issued, share);
      var fromBlock, fromVote := FromPerBlock(l, p, issued), FromPerVote(l, issued, share);
      Ledger(l.supply + issued,
             l.savings + (issued - ToProducers(issued)),
             FilledPerBlock(l, issued) - fromBlock,
             FilledPerVote(l, issued) - fromVote,
             l.balances[p := l.balances[p] + fromBlock + fromVote],
             l.unpaid[p := 0],
             l.totalUnpaid - l.unpaid[p])
  }

  /**
   A claim's issue is split exactly: savings get four fifths rounded up, the per-block bucket a
   twentieth rounded down, and the per-vote bucket what remains.
   */
  lemma SplitFractions(l: Ledger, p: nat, issued: nat, share: real)
    requires Consistent(l) && p < |l.unpaid| && 0.0 <= share <= 1.0
    ensures var l' := Apply(l, Claim(p, issued, share));
            var toSavings := l'.savings - l.savings;
            var toBlock, toVote := FilledPerBlock(l, issued) - l.perBlock, FilledPerVote(l, issued) - l.perVote;
            && 4 * issued <= 5 * toSavings < 4 * issued + 5
            && 20 * toBlock <= issued < 20 * toBlock + 20
            && toSavings + toBlock + toVote == issued
  {
  }

  /** The vote payment is the whole share of the bucket, or nothing while that is below the minimum. */
  lemma VotePayAllOrNothing(l: Ledger, p: nat, issued: nat, share: real)
    requires Consistent(l) && p < |l.unpaid| && 0.0 <= share <= 1.0
    ensures var l' := Apply(l, Claim(p, issued, share));
            var bucket := FilledPerVote(l, issued);
            var taken := bucket - l'.perVote;
            && (taken == 0 || taken >= 1_000_000)
            && (taken > 0 ==> taken as real <= share * bucket as real < taken as real + 1.0)
            && (share * bucket as real >= 1_000_000.0 ==> taken > 0)
  {
    FractionFloor(share, FilledPerVote(l, issued));
  }

  /** A claim pays the claimant, nobody else, exactly what leaves the two buckets, and settles its blocks. */
  lemma ClaimPaysClaimant(l: Ledger, p: nat, issued: nat, share: real)
    requires Consistent(l) && p < |l.unpaid| && 0.0 <= share <= 1.0
    ensures var l' := Apply(l, Claim(p, issued, share));
            && |l'.balances| == |l.balances| && |l'.unpaid| == |l.unpaid|
            && l'.balances[p] - l.balances[p] ==
               (issued - (l'.savings - l.savings)) - (l'.perBlock - l.perBlock) - (l'.perVote - l.perVote)
            && (forall q | 0 <= q < |l.unpaid| && q != p :: l'.balances[q] == l.balances[q] && l'.unpaid[q] == l.unpaid[q])
            && l'.unpaid[p] == 0 && l'.totalUnpaid == l.totalUnpaid - l.unpaid[p] && l'.supply == l.supply + issued
  {
    NeverOverdrawn(l, p, issued, share);
  }

  /** A produced block is one more unpaid block of its producer and changes nothing else. */
  lemma ProduceCounts(l: Ledger, p: nat)
    requires Consistent(l) && p < |l.unpaid|
    ensures var l' := Apply(l, Produce(p));
            && |l'.unpaid| == |l.unpaid| && l'.unpaid[p] == l.unpaid[p] + 1
            && (forall q | 0 <= q < |l.unpaid| && q != p :: l'.unpaid[q] == l.unpaid[q])
            && l' == l.(unpaid := l'.unpaid, totalUnpaid := l.totalUnpaid + 1)
  {
  }

  /**
   For its blocks a claimant gets its part of the bucket, filled with a twentieth of the issue,
   rounded down; nothing while no block is unpaid.
   */
  lemma BlockPayIsShare(l: Ledger, p: nat, issued: nat, share: real)
    requires Consistent(l) && p < |l.unpaid| && 0.0 <= share <= 1.0
    ensures var filled, total := l.perBlock + issued / 20, l.totalUnpaid;
            var pay := filled - Apply(l, Claim(p, issued, share)).perBlock;
            if total == 0 then pay == 0
            else pay * total <= l.unpaid[p] * filled < pay * total + total
  {
    NeverOverdrawn(l, p, issued, share);
    Twentieth(issued);
    if l.totalUnpaid > 0 {
      FloorBounds(l.unpaid[p] * FilledPerBlock(l, issued), l.totalUnpaid);
    }
  }

  lemma Twentieth(issued: nat)
    ensures ToPerBlock(issued) == issued / 20
  {
  }

  lemma FloorBounds(a: nat, b: nat)
    requires b > 0
    ensures a / b * b <= a < a / b * b + b
  {
  }

  // ---------------------------------------------------------------------
  // No bucket is overdrawn
  // ---------------------------------------------------------------------

  lemma {:induction false} SumUpdate(s: seq<nat>, i: nat, x: nat)
    requires i < |s|
    ensures Sum(s[i := x]) + s[i] == Sum(s) + x
    ensures s[i] <= Sum(s)
  {
    var k := |s| - 1;
    if i == k {
      assert s[i := x][..k] == s[..k];
    } else {
      assert s[i := x][..k] == s[..k][i := x];
      SumUpdate(s[..k], i, x);
    }
  }

  lemma ShareAtMost(part: nat, whole: nat, amount: nat)
    requires part <= whole && whole > 0
    ensures part * amount / whole <= amount
  {
    MulMono(part, whole, amount);
    assert part * amount < (amount + 1) * whole by {
      assert (amount + 1) * whole == whole * amount + whole;
    }
    DivBound(part * amount, amount + 1, whole);
  }

  lemma NeverOverdrawn(l: Ledger, p: nat, issued: nat, share: real)
    requires Consistent(l) && p < |l.unpaid| && 0.0 <= share <= 1.0
    ensures l.unpaid[p] <= l.totalUnpaid
    ensures FromPerBlock(l, p, issued) <= FilledPerBlock(l, issued)
    ensures FromPerVote(l, issued, share) <= FilledPerVote(l, issued)
  {
    SumUpdate(l.unpaid, p, 0);
    if l.totalUnpaid > 0 {
      ShareAtMost(l.unpaid[p], l.totalUnpaid, FilledPerBlock(l, issued));
    }
    FractionFloor(share, FilledPerVote(l, issued));
  }

  lemma FractionFloor(share: real, v: nat)
    requires 0.0 <= share <= 1.0
    ensures 0 <= (share * v as real).Floor <= v
  {
    var x := v as real;
    assert share * x >= 0.0;
    assert (1.0 - share) * x >= 0.0;
    assert share * x <= x;
  }

  // ---------------------------------------------------------------------
  // Runs
  // ---------------------------------------------------------------------

  lemma ApplyConsistent(l: Ledger, s: Step)
    requires Consistent(l) && Allowed(l, s)
    ensures Consistent(Apply(l, s)) && |Apply(l, s).unpaid| == |l.unpaid|
  {
    var p := s.producer;
    SumUpdate(l.unpaid, p, if s.Claim? then 0 else l.unpaid[p] + 1);
  }

  /** The tokens outside the ledger: what was issued before and is nowhere in it. */
  function Elsewhere(l: Ledger): int {
    l.supply - l.savings - l.perBlock - l.perVote - Sum(l.balances)
  }

  lemma ApplyConserves(l: Ledger, s: Step)
    requires Consistent(l) && Allowed(l, s)
    ensures Elsewhere(Apply(l, s)) == Elsewhere(l)
  {
    if s.Claim? {
      var p := s.producer;
      NeverOverdrawn(l, p, s.issued, s.share);
      SumUpdate(l.balances, p, l.balances[p] + FromPerBlock(l, p, s.issued) + FromPerVote(l, s.issued, s.share));
    }
  }

  predicate AllowedAll(n: nat, steps: seq<Step>) {
    forall i | 0 <= i < |steps| :: steps[i].producer < n && (steps[i].Claim? ==> 0.0 <= steps[i].share <= 1.0)
  }

  function Run(l: Ledger, steps: seq<Step>): Ledger
    requires Consistent(l) && AllowedAll(|l.unpaid|, steps)
    decreases |steps|
  {
    if steps == [] then l
    else
      ApplyConsistent(l, steps[0]);
      Run(Apply(l, steps[0]), steps[1..])
  }

  /** Over any run every issued token is in savings, a bucket or a balance, despite the divisions. */
  lemma {:induction false} RunConserves(l: Ledger, steps: seq<Step>)
    requires Consistent(l) && AllowedAll(|l.unpaid|, steps)
    ensures Consistent(Run(l, steps)) && |Run(l, steps).unpaid| == |l.unpaid|
    ensures Elsewhere(Run(l, steps)) == Elsewhere(l)
    decreases |steps|
  {
    if steps != [] {
      ApplyConsistent(l, steps[0]);
      ApplyConserves(l, steps[0]);
      RunConserves(Apply(l, steps[0]), steps[1..]);
    }
  }

  /** The last producer with unpaid blocks takes all that is left for blocks. */
  lemma LastClaimDrains(l: Ledger, p: nat, issued: nat, share: real)
    requires Consistent(l) && p < |l.unpaid| && 0.0 <= share <= 1.0
    requires l.unpaid[p] == l.totalUnpaid > 0
    ensures Apply(l, Claim(p, issued, share)).perBlock == 0
    ensures Apply(l, Claim(p, issued, share)).totalUnpaid == 0
  {
    var b := FilledPerBlock(l, issued);
    DivModUnique(l.unpaid[p] * b, l.totalUnpaid, b, 0);
  }

  /** Once everybody has claimed, without further issue, the block bucket has been paid out to the last unit. */
  lemma {:induction false} AllClaimedDrains(l: Ledger, claims: seq<Step>)
    requires Consistent(l) && AllowedAll(|l.unpaid|, claims)
    requires forall i | 0 <= i < |claims| :: claims[i].Claim? && claims[i].issued == 0
    requires l.totalUnpaid > 0 || l.perBlock == 0
    requires Run(l, claims).totalUnpaid == 0
    ensures Run(l, claims).perBlock == 0
    decreases |claims|
  {
    if claims != [] {
      var p := claims[0].producer;
      ApplyConsistent(l, claims[0]);
      UnpaidWithinTotal(l, p);
      if l.unpaid[p] == l.totalUnpaid > 0 {
        LastClaimDrains(l, p, 0, claims[0].share);
      }
      AllClaimedDrains(Apply(l, claims[0]), claims[1..]);
    }
  }

  // ---------------------------------------------------------------------
  // Nobody loses by claiming late
  // ---------------------------------------------------------------------

  /** The bucket per unpaid block has not fallen from l to m. */
  predicate RateKept(l: Ledger, m: Ledger) {
    m.perBlock * l.totalUnpaid >= l.perBlock * m.totalUnpaid
  }

  lemma FloorBelow(a: nat, b: nat)
    requires b > 0
    ensures a / b * b <= a
  {
  }

  lemma RateAfterPay(bucket: nat, filled: nat, total: nat, u: nat)
    requires filled >= bucket && u <= total && total > 0
    ensures u * filled / total <= filled
    ensures (filled - u * filled / total) * total >= bucket * (total - u)
  {
    var pay := u * filled / total;
    ShareAtMost(u, total, filled);
    FloorBelow(u * filled, total);
    assert (filled - pay) * total == filled * total - pay * total;
    assert filled * (total - u) == filled * total - u * filled;
    MulMono(bucket, filled, total - u);
  }

  lemma ClaimKeepsRate(l: Ledger, s: Step)
    requires Consistent(l) && Allowed(l, s) && s.Claim? && l.totalUnpaid > 0
    ensures RateKept(l, Apply(l, s))
  {
    UnpaidWithinTotal(l, s.producer);
    RateAfterPay(l.perBlock, FilledPerBlock(l, s.issued), l.totalUnpaid, l.unpaid[s.producer]);
  }

  lemma RateTransitive(a: nat, s: nat, b: nat, t: nat, c: nat, u: nat)
    requires t > 0 && b * s >= a * t && c * t >= b * u
    ensures c * s >= a * u
  {
    MulMono(b * u, c * t, s);
    MulMono(a * t, b * s, u);
    assert c * t * s == t * (c * s);
    assert a * t * u == t * (a * u);
    assert b * u * s == b * s * u;
    CancelFactor(a * u, c * s, t);
  }

  lemma CancelFactor(x: nat, y: nat, t: nat)
    requires t > 0 && t * x <= t * y
    ensures x <= y
  {
    assert t * (x - y) == t * x - t * y;
    MultipleAway(x - y, t);
  }

  /** While only claims happen, the rate never falls. */
  lemma {:induction false} ClaimsKeepRate(l: Ledger, claims: seq<Step>)
    requires Consistent(l) && AllowedAll(|l.unpaid|, claims)
    requires forall i | 0 <= i < |claims| :: claims[i].Claim?
    requires Run(l, claims).totalUnpaid > 0
    ensures RateKept(l, Run(l, claims)) && l.totalUnpaid > 0
    decreases |claims|
  {
    if claims != [] {
      var m := Apply(l, claims[0]);
      ApplyConsistent(l, claims[0]);
      ClaimsKeepRate(m, claims[1..]);
      UnpaidWithinTotal(l, claims[0].producer);
      ClaimKeepsRate(l, claims[0]);
      var e := Run(m, claims[1..]);
      RateTransitive(l.perBlock, l.totalUnpaid, m.perBlock, m.totalUnpaid, e.perBlock, e.totalUnpaid);
    }
  }

  lemma QuotientAtLeast(a: nat, b: nat, q: nat)
    requires b > 0 && q * b <= a
    ensures a / b >= q
  {
    assert b * (q - a / b) == q * b - a / b * b;
    MultipleAway(q - a / b, b);
  }

  lemma FloorMonotone(a: nat, b: nat, c: nat, d: nat)
    requires b > 0 && d > 0 && a * d >= c * b
    ensures a / b >= c / d
  {
    var q := c / d;
    FloorBelow(c, d);
    MulMono(q * d, c, b);
    assert q * d * b == d * (q * b);
    assert a * d == d * a;
    CancelFactor(q * b, a, d);
    QuotientAtLeast(a, b, q);
  }

  /** The same number of blocks is worth no less at a rate that is no lower. */
  lemma ShareAtRate(u: nat, bucket: nat, total: nat, bucket': nat, filled': nat, total': nat)
    requires total > 0 && total' > 0 && bucket' * total >= bucket * total' && filled' >= bucket'
    ensures u * filled' / total' >= u * bucket / total
  {
    MulMono(bucket', filled', total);
    MulMono(bucket * total', filled' * total, u);
    assert filled' * total * u == u * filled' * total;
    assert bucket * total' * u == u * bucket * total';
    FloorMonotone(u * filled', total', u * bucket, total);
  }

  /**
   A producer who has not claimed yet gets, whatever claims come first, at least the share of the
   bucket that claiming at once would have given for its blocks.
   */
  lemma LateClaimLosesNothing(l: Ledger, claims: seq<Step>, p: nat, issued: nat)
    requires Consistent(l) && AllowedAll(|l.unpaid|, claims) && p < |l.unpaid|
    requires forall i | 0 <= i < |claims| :: claims[i].Claim? && claims[i].producer != p
    ensures p < |Run(l, claims).unpaid|
    ensures FromPerBlock(Run(l, claims), p, issued) >= FromPerBlock(l, p, 0)
  {
    var e := Run(l, claims);
    RunConserves(l, claims);
    OthersKeepUnpaid(l, claims, p);
    UnpaidWithinTotal(e, p);
    UnpaidWithinTotal(l, p);
    if l.unpaid[p] > 0 {
      ClaimsKeepRate(l, claims);
      PayAtRate(l, e, p, issued);
    } else {
      NoBlocksNoPay(l, p);
    }
  }

  lemma PayAtRate(l: Ledger, e: Ledger, p: nat, issued: nat)
    requires p < |l.unpaid| == |e.unpaid| && l.unpaid[p] == e.unpaid[p]
    requires RateKept(l, e) && l.totalUnpaid > 0 && e.totalUnpaid > 0
    ensures FromPerBlock(e, p, issued) >= FromPerBlock(l, p, 0)
  {
    ShareAtRate(l.unpaid[p], l.perBlock, l.totalUnpaid, e.perBlock, FilledPerBlock(e, issued), e.totalUnpaid);
  }

  lemma NoBlocksNoPay(l: Ledger, p: nat)
    requires p < |l.unpaid| && l.unpaid[p] == 0
    ensures FromPerBlock(l, p, 0) == 0
  {
    assert 0 * FilledPerBlock(l, 0) == 0;
  }

  lemma UnpaidWithinTotal(l: Ledger, p: nat)
    requires Consistent(l) && p < |l.unpaid|
    ensures l.unpaid[p] <= l.totalUnpaid
  {
    SumUpdate(l.unpaid, p, 0);
  }

  lemma {:induction false} OthersKeepUnpaid(l: Ledger, claims: seq<Step>, p: nat)
    requires Consistent(l) && AllowedAll(|l.unpaid|, claims) && p < |l.unpaid|
    requires forall i | 0 <= i < |claims| :: claims[i].Claim? && claims[i].producer != p
    ensures p < |Run(l, claims).unpaid| && Run(l, claims).unpaid[p] == l.unpaid[p]
    decreases |claims|
  {
    if claims != [] {
      ApplyConsistent(l, claims[0]);
      OthersKeepUnpaid(Apply(l, claims[0]), claims[1..], p);
    }
  }
}
