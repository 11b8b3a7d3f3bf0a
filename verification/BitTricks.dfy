/**
 The bit tricks of incremental_merkle: the depth of a tree is read off the leaf count
 by smearing its highest bit and counting with masks.
 */
module BitTricks {
  import opened Arith

  function Smear(v: bv64): bv64 {
    var a := v | (v >> 1);
    var b := a | (a >> 2);
    var c := b | (b >> 4);
    var d := c | (c >> 8);
    var e := d | (d >> 16);
    e | (e >> 32)
  }

  function NextPowerOf2(value: bv64): bv64 {
    Smear(value - 1) + 1
  }

  function ClzPower2(value: bv64): int {
    64 - (if value != 0 then 1 else 0)
       - (if value & 0x00000000FFFFFFFF != 0 then 32 else 0)
       - (if value & 0x0000FFFF0000FFFF != 0 then 16 else 0)
       - (if value & 0x00FF00FF00FF00FF != 0 then 8 else 0)
       - (if value & 0x0F0F0F0F0F0F0F0F != 0 then 4 else 0)
       - (if value & 0x3333333333333333 != 0 then 2 else 0)
       - (if value & 0x5555555555555555 != 0 then 1 else 0)
  }

  function CalculateMaxDepth(nodeCount: bv64): int {
    if nodeCount == 0 then 0 else ClzPower2(NextPowerOf2(nodeCount)) + 1
  }

  /** The number of binary digits. */
  function BitLength(n: bv64): nat
    decreases n
  {
    if n == 0 then 0 else 1 + BitLength(n >> 1)
  }

  /** The number a bit vector denotes. */
  function Value(n: bv64): nat
    decreases n
  {
    if n == 0 then 0 else 2 * Value(n >> 1) + if n & 1 == 0 then 0 else 1
  }

  /** What one turn of the collapsing loop does to its index. */
  lemma IndexStep(n: bv64)
    ensures n == 0 <==> Value(n) == 0
    ensures n == 0 <==> BitLength(n) == 0
    ensures n & 1 == 0 <==> Value(n) % 2 == 0
    ensures Value(n >> 1) == Value(n) / 2
    ensures n != 0 ==> BitLength(n >> 1) == BitLength(n) - 1
  {
    ValuePositive(n);
  }

  lemma {:induction false} ValuePositive(n: bv64)
    ensures n != 0 ==> Value(n) > 0
    decreases n
  {
    if n != 0 && n & 1 == 0 {
      assert n >> 1 != 0;
      ValuePositive(n >> 1);
    }
  }

  lemma Doubles(x: bv64)
    requires x <= 0x7FFF_FFFF_FFFF_FFFF
    ensures (2 * x) >> 1 == x && (2 * x) & 1 == 0
    ensures (2 * x + 1) >> 1 == x && (2 * x + 1) & 1 != 0
    ensures 2 * x + 1 != 0 && (x != 0 ==> 2 * x != 0)
  {
  }

  lemma ValueOfDouble(x: bv64)
    requires x <= 0x7FFF_FFFF_FFFF_FFFF
    ensures Value(2 * x) == 2 * Value(x)
  {
    Doubles(x);
    if x == 0 { assert 2 * x == 0; }
  }

  lemma ValueOfDoublePlus(x: bv64)
    requires x <= 0x7FFF_FFFF_FFFF_FFFF
    ensures Value(2 * x + 1) == 2 * Value(x) + 1
  {
    Doubles(x);
  }

  lemma Poly(n: bv64, k: bv64)
    requires n == 2 * k + 1
    ensures n + 1 == 2 * (k + 1)
  {
  }

  lemma OddCase(n: bv64, k: bv64, k1: bv64)
    requires n == 2 * k + 1 && k1 == k + 1 && k <= 0x7FFF_FFFF_FFFF_FFFF && k1 <= 0x7FFF_FFFF_FFFF_FFFF
    requires Value(k1) == Value(k) + 1
    ensures Value(n + 1) == Value(n) + 1
  {
    Poly(n, k);
    ValueOfDouble(k1);
    ValueOfDoublePlus(k);
  }

  lemma EvenCase(n: bv64, k: bv64)
    requires n == 2 * k && k <= 0x7FFF_FFFF_FFFF_FFFF
    ensures Value(n + 1) == Value(n) + 1
  {
    ValueOfDouble(k);
    ValueOfDoublePlus(k);
  }

  lemma OddForm(n: bv64, k: bv64)
    requires k == n >> 1
    ensures n & 1 != 0 ==> n == 2 * k + 1
  {
  }

  lemma OddSmaller(n: bv64, k: bv64)
    requires k == n >> 1
    ensures n & 1 != 0 ==> k < n
  {
  }

  lemma OddBound(n: bv64, k: bv64)
    requires k == n >> 1
    ensures n & 1 != 0 && n != 0xFFFF_FFFF_FFFF_FFFF ==> k < 0x7FFF_FFFF_FFFF_FFFF
  {
  }

  lemma HalveOdd(n: bv64) returns (k: bv64)
    requires n & 1 != 0 && n != 0xFFFF_FFFF_FFFF_FFFF
    ensures n == 2 * k + 1
    ensures k < n && k < 0x7FFF_FFFF_FFFF_FFFF
  {
    k := n >> 1;
    OddForm(n, k);
    OddSmaller(n, k);
    OddBound(n, k);
  }

  lemma HalveEven(n: bv64) returns (k: bv64)
    requires n & 1 == 0
    ensures n == 2 * k
    ensures k <= 0x7FFF_FFFF_FFFF_FFFF
  {
    k := n >> 1;
  }

  lemma Next(k: bv64, k1: bv64)
    requires k < 0x7FFF_FFFF_FFFF_FFFF && k1 == k + 1
    ensures k1 <= 0x7FFF_FFFF_FFFF_FFFF && k != 0xFFFF_FFFF_FFFF_FFFF && k <= 0x7FFF_FFFF_FFFF_FFFF
  {
  }

  lemma {:induction false} ValueOfSuccessor(n: bv64)
    requires n != 0xFFFF_FFFF_FFFF_FFFF
    ensures Value(n + 1) == Value(n) + 1
    decreases n
  {
    if n & 1 == 0 {
      var k := HalveEven(n);
      EvenCase(n, k);
    } else {
      var k := HalveOdd(n);
      Next(k, k + 1);
      ValueOfSuccessor(k);
      OddCase(n, k, k + 1);
    }
  }

  /** The least power of two above n, by repeated halving; 2^64 wraps to 0. */
  function PowerAbove(n: bv64): bv64
    decreases n
  {
    if n == 0 then 1 else PowerAbove(n >> 1) << 1
  }

  lemma SmearShift(n: bv64)
    requires n != 0
    ensures Smear(n) + 1 == (Smear(n >> 1) + 1) << 1
  {
  }

  lemma HalfStep(n: bv64) returns (k: bv64)
    requires n != 0
    ensures k < n && k <= 0x7FFF_FFFF_FFFF_FFFF
    ensures PowerAbove(n) == PowerAbove(k) << 1
    ensures BitLength(n) == 1 + BitLength(k)
    ensures Smear(n) + 1 == (Smear(k) + 1) << 1
  {
    k := n >> 1;
    SmearShift(n);
  }

  lemma {:induction false} SmearIsPowerAbove(n: bv64)
    ensures Smear(n) + 1 == PowerAbove(n)
    decreases n
  {
    if n != 0 {
      var k := HalfStep(n);
      SmearIsPowerAbove(k);
    }
  }

  lemma SmearPower(n: bv64)
    ensures Smear(n) & (Smear(n) + 1) == 0
  {
  }

  lemma SmearNotFull(n: bv64)
    ensures n <= 0x7FFF_FFFF_FFFF_FFFF ==> Smear(n) + 1 != 0
  {
  }

  lemma PowerAboveIsPower(n: bv64) returns (s: bv64)
    ensures PowerAbove(n) == s + 1 && s & (s + 1) == 0
    ensures n <= 0x7FFF_FFFF_FFFF_FFFF ==> PowerAbove(n) != 0
  {
    s := Smear(n);
    SmearPower(n);
    SmearNotFull(n);
    SmearIsPowerAbove(n);
  }

  // ---------------------------------------------------------------------
  // As numbers
  // ---------------------------------------------------------------------

  lemma SmearBound(n: bv64)
    requires n <= 0x3FFF_FFFF_FFFF_FFFF
    ensures Smear(n) + 1 <= 0x4000_0000_0000_0000
  {
  }

  lemma PowerAboveFits(n: bv64)
    requires n <= 0x3FFF_FFFF_FFFF_FFFF
    ensures PowerAbove(n) <= 0x7FFF_FFFF_FFFF_FFFF
  {
    SmearBound(n);
    SmearIsPowerAbove(n);
  }

  lemma HalfBound(n: bv64)
    requires n <= 0x7FFF_FFFF_FFFF_FFFF
    ensures n >> 1 <= 0x3FFF_FFFF_FFFF_FFFF
  {
  }

  lemma ShiftDoubles(p: bv64)
    ensures p << 1 == 2 * p
  {
  }

  lemma ValueOfShift(p: bv64)
    requires p <= 0x7FFF_FFFF_FFFF_FFFF
    ensures Value(p << 1) == 2 * Value(p)
  {
    ShiftDoubles(p);
    ValueOfDouble(p);
  }

  lemma HalveBoth(n: bv64) returns (k: bv64)
    requires n != 0 && n <= 0x7FFF_FFFF_FFFF_FFFF
    ensures k < n && k <= 0x3FFF_FFFF_FFFF_FFFF
    ensures PowerAbove(n) == PowerAbove(k) << 1 && BitLength(n) == 1 + BitLength(k)
    ensures 2 * Value(k) <= Value(n) <= 2 * Value(k) + 1
  {
    k := n >> 1;
    HalfBound(n);
  }

  /** PowerAbove(n) denotes two to the number of digits of n, and lies above n but not above 2 n. */
  lemma {:induction false} PowerAboveValue(n: bv64)
    requires n <= 0x7FFF_FFFF_FFFF_FFFF
    ensures Value(PowerAbove(n)) == Pow2(BitLength(n))
    ensures Value(n) < Pow2(BitLength(n))
    ensures n != 0 ==> BitLength(n) > 0 && Pow2(BitLength(n) - 1) <= Value(n)
    decreases n
  {
    if n == 0 {
      ValueOfOne();
    } else {
      var k := HalveBoth(n);
      PowerAboveValue(k);
      PowerAboveFits(k);
      ValueOfShift(PowerAbove(k));
      ValuePositive(n);
    }
  }

  lemma ValueOfOne()
    ensures Value(1) == 1
  {
    ValueOfDoublePlus(0);
  }

  lemma {:induction false} Pow2Monotone(a: nat, b: nat)
    requires a <= b
    ensures Pow2(a) <= Pow2(b)
  {
    if a < b {
      Pow2Monotone(a, b - 1);
    }
  }

  /** next_power_of_2 of n + 1 is the least power of two above n. */
  lemma NextPowerIsLeast(n: bv64, m: bv64, k: nat)
    requires n <= 0x7FFF_FFFF_FFFF_FFFF && n == m - 1
    ensures Value(NextPowerOf2(m)) == Pow2(BitLength(n)) > Value(n)
    ensures Pow2(k) > Value(n) ==> Pow2(k) >= Value(NextPowerOf2(m))
  {
    NextPowerIsPowerAbove(m, n);
    PowerAboveValue(n);
    if k < BitLength(n) {
      Pow2Monotone(k, BitLength(n) - 1);
    } else {
      Pow2Monotone(BitLength(n), k);
    }
  }

  lemma ClzShift(s: bv64, q: bv64, r: bv64)
    requires q == s + 1 && q != 0 && s & q == 0 && r == q << 1
    ensures ClzPower2(r) == ClzPower2(q) + 1
  {
  }

  lemma {:induction false} ClzIsBitLength(n: bv64)
    ensures ClzPower2(PowerAbove(n)) == BitLength(n)
    decreases n
  {
    if n != 0 {
      var k := HalfStep(n);
      var s := PowerAboveIsPower(k);
      ClzShift(s, PowerAbove(k), PowerAbove(n));
      ClzIsBitLength(k);
    }
  }

  lemma NextPowerIsPowerAbove(m: bv64, n: bv64)
    requires n == m - 1
    ensures NextPowerOf2(m) == PowerAbove(n)
  {
    SmearIsPowerAbove(n);
  }

  /** The depth computed for n + 1 nodes is one more than the number of binary digits of n. */
  lemma DepthIsBitLength(n: bv64, m: bv64)
    requires m != 0 && n == m - 1
    ensures CalculateMaxDepth(m) == BitLength(n) + 1
  {
    NextPowerIsPowerAbove(m, n);
    ClzIsBitLength(n);
  }
}
