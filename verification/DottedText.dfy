/** Dots in a sequence of characters, for any character type. */
module DottedText {

  /** The length of the first i characters without trailing dots. */
  function TrimmedLength<T(==)>(c: seq<T>, i: nat, dot: T): (k: nat)
    requires i <= |c|
    ensures k <= i && (k > 0 ==> c[k - 1] != dot)
  {
    if i > 0 && c[i - 1] == dot then TrimmedLength(c, i - 1, dot) else i
  }

  /** Without trailing dots. */
  function Trim<T(==)>(c: seq<T>, dot: T): seq<T> {
    c[..TrimmedLength(c, |c|, dot)]
  }

  /** The last dot among the first i characters, or -1. */
  function LastDot<T(==)>(c: seq<T>, i: nat, dot: T): (d: int)
    requires i <= |c|
    ensures -1 <= d < i && (d >= 0 ==> c[d] == dot)
  {
    if i == 0 then -1 else if c[i - 1] == dot then i - 1 else LastDot(c, i - 1, dot)
  }

  /** What follows the last dot, or everything when there is no dot. */
  function LastSegment<T(==)>(c: seq<T>, dot: T): seq<T> {
    c[LastDot(c, |c|, dot) + 1..]
  }

  /** The last dot that precedes the last non-dot among the first i characters, or -1. */
  function LastActualDot<T(==)>(c: seq<T>, i: nat, dot: T): (d: int)
    requires i <= |c|
    ensures -1 <= d < i && (i > 0 ==> d < i - 1)
  {
    if i == 0 then -1
    else if c[i - 1] == dot then LastActualDot(c, i - 1, dot)
    else LastDot(c, i - 1, dot)
  }

  function Dots<T>(dot: T, k: nat): seq<T> {
    seq(k, _ => dot)
  }

  /** The characters after position d, left-justified and padded with dots. */
  function After<T>(c: seq<T>, d: int, dot: T): seq<T>
    requires -1 <= d < |c|
  {
    c[d + 1..] + Dots(dot, d + 1)
  }

  lemma AfterOneFurther<T>(c: seq<T>, d: nat, dot: T)
    requires d < |c|
    ensures After(c, d, dot) == (if d == 0 then c else After(c, d - 1, dot))[1..] + [dot]
  {
  }

  lemma {:induction false} ActualDotOfTrimmed<T>(c: seq<T>, i: nat, dot: T)
    requires i <= |c|
    ensures LastActualDot(c, i, dot) == LastDot(c, TrimmedLength(c, i, dot), dot)
  {
    if i > 0 && c[i - 1] == dot {
      ActualDotOfTrimmed(c, i - 1, dot);
    }
  }

  lemma {:induction false} DotsBeyondTrimmed<T>(c: seq<T>, i: nat, dot: T)
    requires i <= |c|
    ensures forall j | TrimmedLength(c, i, dot) <= j < i :: c[j] == dot
  {
    if i > 0 && c[i - 1] == dot {
      DotsBeyondTrimmed(c, i - 1, dot);
    }
  }

  lemma {:induction false} NoDotBeyondLast<T>(c: seq<T>, i: nat, dot: T)
    requires i <= |c|
    ensures forall j | LastDot(c, i, dot) < j < i :: c[j] != dot
  {
    if i > 0 && c[i - 1] != dot {
      NoDotBeyondLast(c, i - 1, dot);
    }
  }

  lemma TrimIs<T>(c: seq<T>, k: nat, dot: T)
    requires k <= |c| && (k > 0 ==> c[k - 1] != dot)
    requires forall j | k <= j < |c| :: c[j] == dot
    ensures Trim(c, dot) == c[..k]
  {
    var l := TrimmedLength(c, |c|, dot);
    DotsBeyondTrimmed(c, |c|, dot);
    assert l > 0 ==> c[l - 1] != dot;
  }

  lemma {:induction false} LastDotOfPrefix<T>(c: seq<T>, k: nat, i: nat, dot: T)
    requires i <= k <= |c|
    ensures LastDot(c[..k], i, dot) == LastDot(c, i, dot)
  {
    if i > 0 && c[i - 1] != dot {
      LastDotOfPrefix(c, k, i - 1, dot);
    }
  }

  lemma TrimAfter<T>(c: seq<T>, d: int, k: nat, dot: T)
    requires -1 <= d < k <= |c| && (d + 1 < k ==> c[k - 1] != dot)
    requires forall j | k <= j < |c| :: c[j] == dot
    requires d < |c|
    ensures Trim(After(c, d, dot), dot) == c[d + 1..k]
  {
    var tail, pad, n := c[d + 1..], Dots(dot, d + 1), k - (d + 1);
    assert tail[..n] == c[d + 1..k];
    assert n > 0 ==> tail[n - 1] == c[k - 1];
    forall j | n <= j < |tail| ensures tail[j] == dot {
      assert tail[j] == c[d + 1 + j];
    }
    TrimIs(tail + pad, n, dot);
    assert (tail + pad)[..n] == tail[..n];
  }

  lemma SegmentOfPrefix<T>(c: seq<T>, k: nat, dot: T)
    requires k <= |c|
    ensures LastSegment(c[..k], dot) == c[LastDot(c, k, dot) + 1..k]
  {
    LastDotOfPrefix(c, k, k, dot);
  }

  /** Keeping only what follows the last actual dot keeps the last segment of the trimmed text. */
  lemma SegmentAfter<T>(c: seq<T>, d: int, dot: T)
    requires c != [] && d == LastActualDot(c, |c|, dot)
    ensures Trim(After(c, d, dot), dot) == LastSegment(Trim(c, dot), dot)
  {
    var k := TrimmedLength(c, |c|, dot);
    ActualDotOfTrimmed(c, |c|, dot);
    DotsBeyondTrimmed(c, |c|, dot);
    TrimAfter(c, d, k, dot);
    SegmentOfPrefix(c, k, dot);
  }

  lemma SegmentDotFree<T>(c: seq<T>, dot: T)
    ensures dot !in LastSegment(c, dot)
    ensures LastSegment(c, dot) == c <==> dot !in c
  {
    var d := LastDot(c, |c|, dot);
    NoDotBeyondLast(c, |c|, dot);
    if d >= 0 { assert c[d] == dot; }
  }

  lemma TrimDeterminesPadded<T>(c: seq<T>, d: seq<T>, dot: T)
    requires |c| == |d| && Trim(c, dot) == Trim(d, dot)
    ensures c == d
  {
    var t := Trim(c, dot);
    DotsBeyondTrimmed(c, |c|, dot);
    DotsBeyondTrimmed(d, |d|, dot);
    forall i | 0 <= i < |c| ensures c[i] == d[i] {
      if i < |t| { assert c[i] == t[i] && d[i] == t[i]; }
    }
  }
}
