/**
 Which producer a slot belongs to, and where the next round begins. R is
 config::producer_repetitions.
 */
module ProducerSchedule {
  import opened Arith

  datatype ProducerKey = ProducerKey(name: string, key: string)

  /** The position in a schedule of n producers. */
  function Position(slot: nat, n: nat, r: nat): nat
    requires n > 0 && r > 0
  {
    slot % (n * r) / r
  }

  function ExpectedProducer(schedule: seq<ProducerKey>, slot: nat, r: nat): string
    requires schedule != [] && r > 0
  {
    PositionInRange(slot, |schedule|, r);
    schedule[Position(slot, |schedule|, r)].name
  }

  lemma PositionInRange(slot: nat, n: nat, r: nat)
    requires n > 0 && r > 0
    ensures Position(slot, n, r) < n
  {
    DivBound(slot % (n * r), n, r);
  }

  lemma PositionPeriodic(slot: nat, n: nat, r: nat)
    requires n > 0 && r > 0
    ensures Position(slot + n * r, n, r) == Position(slot, n, r)
  {
    var m := n * r;
    assert slot + m == (slot / m + 1) * m + slot % m by {
      assert (slot / m + 1) * m == slot / m * m + m;
    }
    DivModUnique(slot + m, m, slot / m + 1, slot % m);
  }

  /** Slot number k of the turn of position q in round t. */
  function SlotOf(t: nat, q: nat, k: nat, n: nat, r: nat): nat {
    t * (n * r) + (q * r + k)
  }

  lemma TurnBelow(q: nat, k: nat, n: nat, r: nat)
    requires q < n && k < r
    ensures q * r + k < n * r
  {
    MulMono(q + 1, n, r);
    assert (q + 1) * r == q * r + r;
  }

  lemma PositionOf(t: nat, q: nat, k: nat, n: nat, r: nat)
    requires q < n && k < r
    ensures Position(SlotOf(t, q, k, n, r), n, r) == q
  {
    TurnBelow(q, k, n, r);
    DivModUnique(SlotOf(t, q, k, n, r), n * r, t, q * r + k);
    DivModUnique(q * r + k, r, q, k);
  }

  lemma TurnOf(t: nat, q: nat, k: nat, n: nat, r: nat)
    requires k < r
    ensures SlotOf(t, q, k, n, r) % r == k
  {
    assert SlotOf(t, q, k, n, r) == (t * n + q) * r + k by {
      assert (t * n + q) * r == t * n * r + q * r;
      assert t * n * r == t * (n * r);
    }
    DivModUnique(SlotOf(t, q, k, n, r), r, t * n + q, k);
  }

  /** The producer of a slot is the one at whose turn it falls. */
  lemma ExpectedProducerAt(schedule: seq<ProducerKey>, t: nat, q: nat, k: nat, r: nat)
    requires q < |schedule| && k < r
    ensures ExpectedProducer(schedule, SlotOf(t, q, k, |schedule|, r), r) == schedule[q].name
  {
    PositionOf(t, q, k, |schedule|, r);
  }

  /** Every slot belongs to one turn in one round. */
  lemma Decompose(slot: nat, n: nat, r: nat) returns (t: nat, q: nat, k: nat)
    requires n > 0 && r > 0
    ensures slot == SlotOf(t, q, k, n, r) && q < n && k < r
  {
    var m := n * r;
    t, q, k := slot / m, slot % m / r, slot % m % r;
    PositionInRange(slot, n, r);
    assert slot % m == q * r + k;
  }

  /** The slot after the last one of a turn is the first one of the next turn, or of the next round. */
  lemma SlotAfterTurn(t: nat, q: nat, n: nat, r: nat)
    requires q < n && r > 0
    ensures SlotOf(t, q, r - 1, n, r) + 1 == if q + 1 < n then SlotOf(t, q + 1, 0, n, r) else SlotOf(t + 1, 0, 0, n, r)
  {
    assert (q + 1) * r == q * r + r;
    assert (t + 1) * (n * r) == t * (n * r) + n * r;
  }

  lemma RotationOfTurn(t: nat, q: nat, k: nat, n: nat, r: nat)
    requires q < n && k < r
    ensures var next := SlotOf(t, q, k, n, r) + 1;
            && (next % r == 0 <==> k + 1 == r)
            && Position(next, n, r) == if k + 1 == r then (if q + 1 < n then q + 1 else 0) else q
  {
    if k + 1 < r {
      assert SlotOf(t, q, k, n, r) + 1 == SlotOf(t, q, k + 1, n, r);
      PositionOf(t, q, k + 1, n, r);
      TurnOf(t, q, k + 1, n, r);
    } else {
      SlotAfterTurn(t, q, n, r);
      if q + 1 < n {
        PositionOf(t, q + 1, 0, n, r);
        TurnOf(t, q + 1, 0, n, r);
      } else {
        PositionOf(t + 1, 0, 0, n, r);
        TurnOf(t + 1, 0, 0, n, r);
      }
    }
  }

  /** The turn passes only at multiples of R, and then to the next producer in cyclic order. */
  lemma Rotation(slot: nat, n: nat, r: nat)
    requires n > 0 && r > 0
    ensures var p := Position(slot, n, r);
            Position(slot + 1, n, r) == if (slot + 1) % r == 0 then (if p + 1 < n then p + 1 else 0) else p
  {
    var t, q, k := Decompose(slot, n, r);
    PositionOf(t, q, k, n, r);
    RotationOfTurn(t, q, k, n, r);
  }

  // ---------------------------------------------------------------------
  // Fairness
  // ---------------------------------------------------------------------

  /** The slots in [start, start + len) that belong to position p. */
  function Slots(start: nat, len: nat, p: nat, n: nat, r: nat): nat
    requires n > 0 && r > 0
  {
    if len == 0 then 0
    else Slots(start, len - 1, p, n, r) + if Position(start + len - 1, n, r) == p then 1 else 0
  }

  lemma {:induction false} SlotsFromFront(start: nat, len: nat, p: nat, n: nat, r: nat)
    requires n > 0 && r > 0 && len > 0
    ensures Slots(start, len, p, n, r) ==
            (if Position(start, n, r) == p then 1 else 0) + Slots(start + 1, len - 1, p, n, r)
    decreases len
  {
    if len > 1 {
      SlotsFromFront(start, len - 1, p, n, r);
    }
  }

  lemma {:induction false} WindowSlides(start: nat, p: nat, n: nat, r: nat)
    requires n > 0 && r > 0
    ensures Slots(start, n * r, p, n, r) == Slots(0, n * r, p, n, r)
    decreases start
  {
    if start > 0 {
      var m := n * r;
      WindowSlides(start - 1, p, n, r);
      PositionPeriodic(start - 1, n, r);
      SlotsFromFront(start - 1, m, p, n, r);
      assert Slots(start, m, p, n, r) ==
             Slots(start, m - 1, p, n, r) + if Position(start + m - 1, n, r) == p then 1 else 0;
      assert start + m - 1 == start - 1 + m;
    }
  }

  /** The first q turns and k slots of a round give position p its R slots once its turn is over. */
  lemma {:induction false} SlotsOfTurns(q: nat, k: nat, p: nat, n: nat, r: nat)
    requires n > 0 && r > 0 && p < n && q <= n && k <= r && (q == n ==> k == 0)
    ensures Slots(0, q * r + k, p, n, r) == if q < p then 0 else if q == p then k else r
    decreases q, k
  {
    if k > 0 {
      SlotsOfTurns(q, k - 1, p, n, r);
      assert SlotOf(0, q, k - 1, n, r) == q * r + k - 1;
      PositionOf(0, q, k - 1, n, r);
    } else if q > 0 {
      assert q * r == (q - 1) * r + r;
      SlotsOfTurns(q - 1, r, p, n, r);
    }
  }

  /** Any n * R consecutive slots give every position exactly R of them. */
  lemma WindowFair(start: nat, p: nat, n: nat, r: nat)
    requires n > 0 && r > 0 && p < n
    ensures Slots(start, n * r, p, n, r) == r
  {
    WindowSlides(start, p, n, r);
    SlotsOfTurns(n, 0, p, n, r);
  }

  // ---------------------------------------------------------------------
  // The first block of the next round
  // ---------------------------------------------------------------------

  /** The least multiple of m above x. */
  function NextMultiple(x: nat, m: nat): nat
    requires m > 0
  {
    (x / m + 1) * m
  }

  lemma NextMultipleIsLeast(x: nat, m: nat)
    requires m > 0
    ensures x < NextMultiple(x, m) <= x + m && NextMultiple(x, m) % m == 0
    ensures forall y | x < y < NextMultiple(x, m) :: y % m != 0
  {
    var q := x / m;
    assert (q + 1) * m == q * m + m;
    DivModUnique((q + 1) * m, m, q + 1, 0);
    forall y | x < y < NextMultiple(x, m) ensures y % m != 0 {
      DivModUnique(y, m, q, y - q * m);
    }
  }

  /** 32-bit increment. */
  function Inc32(x: nat): nat {
    (x + 1) % TWO32
  }

  /**
   calc_block_num_of_next_round_first_block. The counter has 32 bits: it reaches the next multiple
   exactly when that is below 2^32, and otherwise stops at 0.
   */
  method NextRoundFirstBlock(headBlockNum: nat, n: nat, r: nat) returns (res: nat)
    requires headBlockNum < TWO32 && n > 0 && r > 0
    ensures res == if NextMultiple(headBlockNum, n * r) < TWO32 then NextMultiple(headBlockNum, n * r) else 0
    ensures Position(res, n, r) == 0
  {
    var blocksPerRound := n * r;
    res := CountUp(headBlockNum, blocksPerRound);
  }

  method CountUp(headBlockNum: nat, blocksPerRound: nat) returns (res: nat)
    requires headBlockNum < TWO32 && blocksPerRound > 0
    ensures res % blocksPerRound == 0
    ensures var target := NextMultiple(headBlockNum, blocksPerRound);
            res == if target < TWO32 then target else 0
  {
    ghost var target := NextMultiple(headBlockNum, blocksPerRound);
    NextMultipleIsLeast(headBlockNum, blocksPerRound);
    res := Inc32(headBlockNum);
    while res % blocksPerRound != 0
      invariant res < TWO32
      invariant if res == 0 then target >= TWO32 else headBlockNum < res <= target
      decreases if res == 0 then 0 else TWO32 - res
    {
      res := Inc32(res);
    }
  }

  /** Near the end of the 32-bit range the loop gives up the block number: twelve producers, R = 12. */
  lemma NextRoundCanWrap()
    ensures NextMultiple(TWO32 - 1, 12 * 12) >= TWO32
  {
  }
}
