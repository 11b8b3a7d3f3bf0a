/**
 Which database and which table a key is routed to: LnmcsysDb::_get_table_no,
 _get_server_index and get_db_index. All quantities are unsigned 64-bit; the
 product of the two counts wraps around.
 */
module Sharding {
  import opened Wrappers
  import opened Arith

  type Uint64 = x: nat | x < TWO64

  datatype Shard = Shard(database: nat, table: nat)

  /** What a handle was opened with. */
  datatype Key = ById(id: Uint64) | ByTag(tag: string) | ByDbid(dbid: Uint64)

  function Modulus(dbNum: Uint64, tbNum: Uint64): Uint64 {
    dbNum * tbNum % TWO64
  }

  /** _get_table_no and _get_server_index of one id; None stands for the division by zero. */
  function ShardOf(id: Uint64, dbNum: Uint64, tbNum: Uint64): Option<Shard> {
    var m := Modulus(dbNum, tbNum);
    if m == 0 || tbNum == 0 then None else Some(Shard(id % m / tbNum, id % m % tbNum))
  }

  /** Routing of any key, given the hash of the tag. */
  function Route(key: Key, sign64: string -> Uint64, dbNum: Uint64, tbNum: Uint64): Option<Shard> {
    match key
    case ById(id) => ShardOf(id, dbNum, tbNum)
    case ByTag(tag) => ShardOf(sign64(tag), dbNum, tbNum)
    case ByDbid(dbid) => Some(Shard(dbid, 0))
  }

  // ---------------------------------------------------------------------

  /** How often two divides n. */
  function Twos(n: nat): nat {
    if n == 0 || n % 2 == 1 then 0 else 1 + Twos(n / 2)
  }

  lemma {:induction false} TwosOfProduct(x: nat, y: nat)
    requires x > 0 && y > 0
    ensures x * y > 0 && Twos(x * y) == Twos(x) + Twos(y)
    decreases x + y, x % 2
  {
    if x % 2 == 0 {
      TwosOfProduct(x / 2, y);
      TwosOfDouble(x, x / 2, y);
    } else if y % 2 == 0 {
      TwosOfProduct(y, x);
      Commutes(x, y);
    } else {
      TwosOfOdd(x, y, x / 2, y / 2);
    }
  }

  lemma Commutes(x: nat, y: nat)
    ensures x * y == y * x
  {
  }

  lemma TwosOfDouble(x: nat, h: nat, y: nat)
    requires x == 2 * h && h > 0 && y > 0 && h * y > 0 && Twos(h * y) == Twos(h) + Twos(y)
    ensures x * y > 0 && Twos(x * y) == Twos(x) + Twos(y)
  {
    Doubled(h);
    Doubled(h * y);
    Regroup(h, y);
  }

  lemma Regroup(h: nat, y: nat)
    ensures 2 * h * y == 2 * (h * y)
  {
  }

  lemma Doubled(n: nat)
    requires n > 0
    ensures Twos(2 * n) == 1 + Twos(n)
  {
    assert 2 * n / 2 == n;
  }

  lemma TwosOfOdd(x: nat, y: nat, a: nat, b: nat)
    requires x == 2 * a + 1 && y == 2 * b + 1
    ensures x * y > 0 && Twos(x * y) == Twos(x) + Twos(y)
  {
    OddProduct(a, b);
    OddHasNone(a);
    OddHasNone(b);
    OddHasNone(2 * a * b + a + b);
  }

  lemma OddProduct(a: nat, b: nat)
    ensures (2 * a + 1) * (2 * b + 1) == 2 * (2 * a * b + a + b) + 1
  {
  }

  lemma OddHasNone(m: nat)
    ensures Twos(2 * m + 1) == 0
  {
  }

  /** A power of two divides a number exactly when its exponent does not exceed that of the number. */
  lemma {:induction false} DividesIffTwos(n: nat, k: nat)
    requires n > 0
    ensures n % Pow2(k) == 0 <==> k <= Twos(n)
    decreases k
  {
    if k > 0 {
      var p := Pow2(k - 1);
      DoubledModulus(n, p);
      if n % 2 == 0 {
        DividesIffTwos(n / 2, k - 1);
      }
    }
  }

  lemma DoubledModulus(n: nat, p: nat)
    requires p > 0
    ensures n % (2 * p) == 0 <==> n % 2 == 0 && n / 2 % p == 0
  {
    if n % (2 * p) == 0 {
      var q := n / (2 * p);
      assert n == 2 * p * q;
      assert n == 2 * (p * q);
      DivModUnique(n / 2, p, q, 0);
    }
    if n % 2 == 0 && n / 2 % p == 0 {
      var q := n / 2 / p;
      assert n / 2 == q * p;
      assert n == q * (2 * p);
      DivModUnique(n, 2 * p, q, 0);
    }
  }

  lemma {:induction false} Pow2Sum(a: nat, b: nat)
    ensures Pow2(a + b) == Pow2(a) * Pow2(b)
    decreases a
  {
    if a > 0 {
      Pow2Sum(a - 1, b);
    }
  }

  lemma Pow2Of64()
    ensures Pow2(64) == TWO64
  {
    assert Pow2(4) == 16;
    Pow2Sum(4, 4);
    assert Pow2(8) == 256;
    Pow2Sum(8, 8);
    assert Pow2(16) == 65536;
    Pow2Sum(16, 16);
    Pow2Sum(32, 32);
  }

  lemma ProductWrapsIff(dbNum: Uint64, tbNum: Uint64)
    requires dbNum > 0 && tbNum > 0
    ensures Modulus(dbNum, tbNum) == 0 <==> Twos(dbNum) + Twos(tbNum) >= 64
  {
    TwosOfProduct(dbNum, tbNum);
    Pow2Of64();
    DividesIffTwos(dbNum * tbNum, 64);
  }

  lemma FewTwos(n: Uint64)
    requires n > 0
    ensures Twos(n) < 64
  {
    Pow2Of64();
    DividesIffTwos(n, 64);
  }

  /**
   The routing of positive counts divides by zero exactly when two divides them together 64 times
   or more; so never when the product fits, and never when one of them is odd.
   */
  lemma RoutingDefined(id: Uint64, dbNum: Uint64, tbNum: Uint64)
    requires dbNum > 0 && tbNum > 0
    ensures ShardOf(id, dbNum, tbNum).None? <==> Twos(dbNum) + Twos(tbNum) >= 64
    ensures dbNum * tbNum < TWO64 ==> ShardOf(id, dbNum, tbNum).Some?
    ensures dbNum % 2 == 1 || tbNum % 2 == 1 ==> ShardOf(id, dbNum, tbNum).Some?
  {
    ProductWrapsIff(dbNum, tbNum);
    WrappedProduct(dbNum, tbNum);
    assert dbNum * tbNum > 0;
    FewTwos(dbNum);
    FewTwos(tbNum);
  }

  /** Two accepted counts for which every lookup divides by zero. */
  lemma RoutingCanDivideByZero()
    ensures ShardOf(0, TWO32, TWO32).None?
  {
  }

  /**
   Where each kind of key goes, for all positive counts whose product is not 0 modulo 2^64: by the
   number, or by the hash of the tag, modulo that product; a database is its own number.
   */
  lemma RouteFormula(key: Key, sign64: string -> Uint64, dbNum: Uint64, tbNum: Uint64)
    requires dbNum > 0 && tbNum > 0 && dbNum * tbNum % 0x1_0000_0000_0000_0000 != 0
    ensures var m, route := dbNum * tbNum % 0x1_0000_0000_0000_0000, Route(key, sign64, dbNum, tbNum);
            && route.Some?
            && match key
               case ById(id) => route.value.database == id % m / tbNum && route.value.table == id % m % tbNum
               case ByTag(tag) =>
                 route.value.database == sign64(tag) % m / tbNum && route.value.table == sign64(tag) % m % tbNum
               case ByDbid(dbid) => route.value.database == dbid && route.value.table == 0
  {
  }

  /** Database and table stay in range and together give back the id modulo the number of tables. */
  lemma ShardInRange(id: Uint64, dbNum: Uint64, tbNum: Uint64)
    requires dbNum > 0 && tbNum > 0 && ShardOf(id, dbNum, tbNum).Some?
    ensures var s := ShardOf(id, dbNum, tbNum).value;
            && s.database < dbNum && s.table < tbNum
            && s.database * tbNum + s.table == id % Modulus(dbNum, tbNum)
  {
    var m := Modulus(dbNum, tbNum);
    WrappedProduct(dbNum, tbNum);
    DivBound(id % m, dbNum, tbNum);
  }

  lemma WrappedProduct(dbNum: Uint64, tbNum: Uint64)
    ensures Modulus(dbNum, tbNum) <= dbNum * tbNum
    ensures dbNum * tbNum < TWO64 <==> Modulus(dbNum, tbNum) == dbNum * tbNum
  {
    ModLessThan(dbNum * tbNum, TWO64);
  }

  lemma ModLessThan(x: nat, m: nat)
    requires m > 0
    ensures x % m <= x && (x < m <==> x % m == x)
  {
  }

  /** Ids share a shard exactly when they are congruent modulo the number of tables. */
  lemma SameShardIffCongruent(a: Uint64, b: Uint64, dbNum: Uint64, tbNum: Uint64)
    requires dbNum > 0 && tbNum > 0 && dbNum * tbNum < TWO64
    ensures ShardOf(a, dbNum, tbNum) == ShardOf(b, dbNum, tbNum) <==>
            a % (dbNum * tbNum) == b % (dbNum * tbNum)
  {
    assert dbNum * tbNum > 0;
    WrappedProduct(dbNum, tbNum);
    ShardInRange(a, dbNum, tbNum);
    ShardInRange(b, dbNum, tbNum);
  }

  /** The number of a cell, counting tables database by database. */
  function Code(cell: Shard, tbNum: nat): nat {
    cell.database * tbNum + cell.table
  }

  lemma ShardIffCode(id: Uint64, dbNum: Uint64, tbNum: Uint64, cell: Shard)
    requires dbNum > 0 && tbNum > 0 && dbNum * tbNum < TWO64 && cell.database < dbNum && cell.table < tbNum
    ensures ShardOf(id, dbNum, tbNum) == Some(cell) <==> id % (dbNum * tbNum) == Code(cell, tbNum)
  {
    WrappedProduct(dbNum, tbNum);
    ShardInRange(id, dbNum, tbNum);
    DivModUnique(Code(cell, tbNum), tbNum, cell.database, cell.table);
  }

  lemma CongruentInWindow(start: nat, m: nat, code: nat) returns (id: nat)
    requires m > 0 && code < m
    ensures start <= id < start + m && id % m == code
  {
    var first := start - start % m + code;
    id := if first >= start then first else first + m;
    Congruent(start, m, code, id);
  }

  /** Among any dbNum * tbNum consecutive ids exactly one falls into a given cell. */
  lemma CellHitOnce(start: Uint64, dbNum: Uint64, tbNum: Uint64, cell: Shard) returns (id: Uint64)
    requires dbNum > 0 && tbNum > 0 && start + dbNum * tbNum <= TWO64 && dbNum * tbNum < TWO64
    requires cell.database < dbNum && cell.table < tbNum
    ensures start <= id < start + dbNum * tbNum && ShardOf(id, dbNum, tbNum) == Some(cell)
    ensures forall other: Uint64 | start <= other < start + dbNum * tbNum ::
              ShardOf(other, dbNum, tbNum) == Some(cell) ==> other == id
  {
    CodeBelow(cell, dbNum, tbNum);
    id := CongruentInWindow(start, dbNum * tbNum, Code(cell, tbNum));
    ShardIffCode(id, dbNum, tbNum, cell);
    forall other: Uint64 | start <= other < start + dbNum * tbNum && ShardOf(other, dbNum, tbNum) == Some(cell)
      ensures other == id
    {
      ShardIffCode(other, dbNum, tbNum, cell);
      CongruentClose(other, id, dbNum * tbNum);
    }
  }

  lemma CodeBelow(cell: Shard, dbNum: nat, tbNum: nat)
    requires cell.database < dbNum && cell.table < tbNum
    ensures Code(cell, tbNum) < dbNum * tbNum
  {
    MulMono(cell.database + 1, dbNum, tbNum);
    assert (cell.database + 1) * tbNum == cell.database * tbNum + tbNum;
  }

  lemma Congruent(start: nat, m: nat, code: nat, id: int)
    requires m > 0 && code < m
    requires id == start - start % m + code || id == start - start % m + code + m
    ensures id % m == code
  {
    var q := start / m;
    assert start == q * m + start % m;
    if id == start - start % m + code {
      DivModUnique(id, m, q, code);
    } else {
      assert (q + 1) * m == q * m + m;
      DivModUnique(id, m, q + 1, code);
    }
  }

  lemma CongruentClose(a: nat, b: nat, m: nat)
    requires m > 0 && a % m == b % m && a < b + m && b < a + m
    ensures a == b
  {
    var k := a / m - b / m;
    assert a == (a / m) * m + a % m && b == (b / m) * m + b % m;
    assert a - b == k * m by {
      assert k * m == (a / m) * m - (b / m) * m;
    }
    MultipleAway(k, m);
  }

  /** Every cell is reachable exactly when the number of tables fits 64 bits: otherwise the last one never is. */
  lemma EveryCellReachable(dbNum: Uint64, tbNum: Uint64)
    requires dbNum > 0 && tbNum > 0
    ensures dbNum * tbNum < TWO64 <==>
            forall cell: Shard | cell.database < dbNum && cell.table < tbNum ::
              exists id: Uint64 :: ShardOf(id, dbNum, tbNum) == Some(cell)
  {
    if dbNum * tbNum < TWO64 {
      forall cell: Shard | cell.database < dbNum && cell.table < tbNum
        ensures exists id: Uint64 :: ShardOf(id, dbNum, tbNum) == Some(cell)
      {
        var id := CellHitOnce(0, dbNum, tbNum, cell);
      }
    } else {
      var last := Shard(dbNum - 1, tbNum - 1);
      forall id: Uint64 ensures ShardOf(id, dbNum, tbNum) != Some(last) {
        LastCellUnreachable(id, dbNum, tbNum);
      }
    }
  }

  /** Counts that route every id, but none to the last table. */
  lemma LastTableNeverUsed(id: Uint64)
    ensures ShardOf(id, TWO32, TWO32 + 1).Some?
    ensures ShardOf(id, TWO32, TWO32 + 1) != Some(Shard(TWO32 - 1, TWO32))
  {
    LastCellUnreachable(id, TWO32, TWO32 + 1);
  }

  lemma LastCellUnreachable(id: Uint64, dbNum: Uint64, tbNum: Uint64)
    requires dbNum > 0 && tbNum > 0 && dbNum * tbNum >= TWO64
    ensures ShardOf(id, dbNum, tbNum) != Some(Shard(dbNum - 1, tbNum - 1))
  {
    if ShardOf(id, dbNum, tbNum).Some? {
      ShardInRange(id, dbNum, tbNum);
      assert (dbNum - 1) * tbNum + (tbNum - 1) == dbNum * tbNum - 1;
    }
  }
}
