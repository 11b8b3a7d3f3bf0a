/**
 name_suffix, a bit-level loop over a 64-bit EOSIO name, against the characters
 of the name: twelve 5-bit characters followed by one 4-bit character, where
 the value 0 is a dot. Trailing dots are padding and are not written.

 The specification is on characters only: as written, the suffix is what follows
 the last dot of the name as written.
 */
module NameSuffix {
  import opened DottedText

  const DOT: bv64 := 0

  /** The thirteen characters of a name, left to right. */
  function Chars(n: bv64): (c: seq<bv64>)
    ensures |c| == 13
  {
    [(n >> 59) & 0x1F, (n >> 54) & 0x1F, (n >> 49) & 0x1F, (n >> 44) & 0x1F,
     (n >> 39) & 0x1F, (n >> 34) & 0x1F, (n >> 29) & 0x1F, (n >> 24) & 0x1F,
     (n >> 19) & 0x1F, (n >> 14) & 0x1F, (n >> 9) & 0x1F, (n >> 4) & 0x1F, n & 0x0F]
  }

  /** A name as it is written, without its padding. */
  function AsWritten(n: bv64): seq<bv64> {
    Trim(Chars(n), DOT)
  }

  ghost predicate SuffixOf(n: bv64, r: bv64) {
    AsWritten(r) == LastSegment(AsWritten(n), DOT)
  }

  // ---------------------------------------------------------------------
  // The loop
  // ---------------------------------------------------------------------

  /** How many bits follow the d-th character; 0 stands for "no such character". */
  function BitsAfter(d: int): bv32
    requires -1 <= d <= 11
  {
    match d
    case -1 => 0
    case 0 => 59
    case 1 => 54
    case 2 => 49
    case 3 => 44
    case 4 => 39
    case 5 => 34
    case 6 => 29
    case 7 => 24
    case 8 => 19
    case 9 => 14
    case 10 => 9
    case 11 => 4
  }

  /** Signed 32-bit comparison with 4: the counter runs below zero after the last round. */
  predicate AtLeastFour(x: bv32) {
    4 <= x < 0x8000_0000
  }

  method ComputeSuffix(n: bv64) returns (r: bv64)
    ensures SuffixOf(n, r)
  {
    var remainingBitsAfterLastActualDot := FindLastActualDot(n);
    ghost var d := LastActualDot(Chars(n), 13, DOT);
    BitsAfterZero(d);
    SegmentAfter(Chars(n), d, DOT);
    if remainingBitsAfterLastActualDot == 0 {
      assert After(Chars(n), -1, DOT) == Chars(n);
      return n;
    }
    r := MoveUp(n, remainingBitsAfterLastActualDot, d);
    MovedChars(n, d);
  }

  method FindLastActualDot(n: bv64) returns (bits: bv32)
    ensures bits == BitsAfter(LastActualDot(Chars(n), 13, DOT))
  {
    var tmp;
    bits, tmp := ScanTwelve(n);
    var thirteenthCharacter := LastChar(n);
    if thirteenthCharacter != DOT {
      bits := tmp;
    }
  }

  /** The loop over the twelve 5-bit characters. */
  method ScanTwelve(n: bv64) returns (bits: bv32, tmp: bv32)
    ensures Scanned(n, 12, bits, tmp)
  {
    bits, tmp := 0, 0;
    var remainingBits: bv32 := 59;
    ghost var i := 0;
    while AtLeastFour(remainingBits)
      invariant 0 <= i <= 12
      invariant InRound(n, i, remainingBits, bits, tmp)
      decreases 12 - i
    {
      CounterSteps(i);
      remainingBits, bits, tmp := Round(n, remainingBits, bits, tmp, i);
      i := i + 1;
    }
    CounterSteps(i);
  }

  method Round(n: bv64, remainingBits: bv32, bits: bv32, tmp: bv32, ghost i: nat)
    returns (remainingBits': bv32, bits': bv32, tmp': bv32)
    requires i < 12 && InRound(n, i, remainingBits, bits, tmp)
    ensures InRound(n, i + 1, remainingBits', bits', tmp')
  {
    bits', tmp' := bits, tmp;
    CounterSteps(i);
    ScanOne(n, i, bits, tmp);
    var c := ExtractChar(n, remainingBits, i);
    if c == DOT {
      tmp' := remainingBits;
    } else {
      bits' := tmp;
    }
    remainingBits' := remainingBits - 5;
  }

  ghost predicate InRound(n: bv64, i: nat, remainingBits: bv32, bits: bv32, tmp: bv32)
    requires i <= 12
  {
    remainingBits == CounterAt(i) && Scanned(n, i, bits, tmp)
  }

  /** Both variables point behind the right dots of the first i characters. */
  ghost predicate Scanned(n: bv64, i: nat, bits: bv32, tmp: bv32)
    requires i <= 12
  {
    && tmp == BitsAfter(LastDot(Chars(n), i, DOT))
    && bits == BitsAfter(LastActualDot(Chars(n), i, DOT))
  }

  lemma ScanOne(n: bv64, i: nat, bits: bv32, tmp: bv32)
    requires i < 12 && Scanned(n, i, bits, tmp)
    ensures if Chars(n)[i] == DOT then Scanned(n, i + 1, bits, BitsAfter(i)) else Scanned(n, i + 1, tmp, tmp)
  {
  }

  /** The loop counter before round i, with two's complement wrap-around below zero. */
  function CounterAt(i: nat): bv32
    requires i <= 12
  {
    if i == 12 then 0xFFFF_FFFF else BitsAfter(i)
  }

  lemma CounterSteps(i: nat)
    requires i <= 12
    ensures i < 12 ==> CounterAt(i) - 5 == CounterAt(i + 1) && AtLeastFour(CounterAt(i))
    ensures i == 12 ==> !AtLeastFour(CounterAt(i))
  {
  }

  lemma BitsAfterZero(d: int)
    requires -1 <= d <= 11
    ensures BitsAfter(d) == 0 <==> d == -1
  {
  }

  method LastChar(n: bv64) returns (c: bv64)
    ensures c == Chars(n)[12]
  {
    c := n & 0x0F;
  }

  method ExtractChar(n: bv64, remainingBits: bv32, ghost i: nat) returns (ch: bv64)
    requires i < 12 && remainingBits == BitsAfter(i)
    ensures ch == Chars(n)[i]
  {
    ch := (n >> remainingBits) & 0x1F;
    CharAt(n, remainingBits, i);
  }

  /** The shift and mask of the loop extract the i-th character. */
  lemma CharAt(n: bv64, bits: bv32, i: nat)
    requires i < 12 && bits == BitsAfter(i)
    ensures (n >> bits) & 0x1F == Chars(n)[i]
  {
    if i == 0 { assert bits == 59; } else if i == 1 { assert bits == 54; } else if i == 2 { assert bits == 49; }
    else if i == 3 { assert bits == 44; } else if i == 4 { assert bits == 39; } else if i == 5 { assert bits == 34; }
    else if i == 6 { assert bits == 29; } else if i == 7 { assert bits == 24; } else if i == 8 { assert bits == 19; }
    else if i == 9 { assert bits == 14; } else if i == 10 { assert bits == 9; } else { assert bits == 4; }
  }

  // ---------------------------------------------------------------------
  // Moving the characters behind the dot to the top
  // ---------------------------------------------------------------------

  /** The two shifted fields with the mask and the shift written out as constants. */
  function Moved(n: bv64, d: nat): bv64
    requires d <= 11
  {
    match d
    case 0 => ((n & 0x07FF_FFFF_FFFF_FFF0) << 5) + ((n & 0xF) << 4)
    case 1 => ((n & 0x003F_FFFF_FFFF_FFF0) << 10) + ((n & 0xF) << 9)
    case 2 => ((n & 0x0001_FFFF_FFFF_FFF0) << 15) + ((n & 0xF) << 14)
    case 3 => ((n & 0x0000_0FFF_FFFF_FFF0) << 20) + ((n & 0xF) << 19)
    case 4 => ((n & 0x0000_007F_FFFF_FFF0) << 25) + ((n & 0xF) << 24)
    case 5 => ((n & 0x0000_0003_FFFF_FFF0) << 30) + ((n & 0xF) << 29)
    case 6 => ((n & 0x0000_0000_1FFF_FFF0) << 35) + ((n & 0xF) << 34)
    case 7 => ((n & 0x0000_0000_00FF_FFF0) << 40) + ((n & 0xF) << 39)
    case 8 => ((n & 0x0000_0000_0007_FFF0) << 45) + ((n & 0xF) << 44)
    case 9 => ((n & 0x0000_0000_0000_3FF0) << 50) + ((n & 0xF) << 49)
    case 10 => ((n & 0x0000_0000_0000_01F0) << 55) + ((n & 0xF) << 54)
    case 11 => ((n & 0x0000_0000_0000_0000) << 60) + ((n & 0xF) << 59)
  }

  method MoveUp(n: bv64, bits: bv32, ghost d: nat) returns (r: bv64)
    requires d <= 11 && bits == BitsAfter(d)
    ensures r == Moved(n, d)
  {
    var mask: bv64 := (1 << bits) - 16;
    var shift := 64 - bits;
    r := ((n & mask) << shift) + ((n & 0x0F) << (shift - 1));
  }

  /** Dropping the first character: the thirteenth moves from a 4-bit slot to a 5-bit one, no bits overlap or are lost. */
  lemma DropFirst(n: bv64)
    ensures Chars(Moved(n, 0)) == Chars(n)[1..] + [DOT]
  {
  }

  lemma MovedOneFurther(n: bv64, d: nat)
    requires 1 <= d <= 11
    ensures Moved(n, d) == Moved(Moved(n, d - 1), 0)
  {
    match d
    case 1 => MovedTo1(n);
    case 2 => MovedTo2(n);
    case 3 => MovedTo3(n);
    case 4 => MovedTo4(n);
    case 5 => MovedTo5(n);
    case 6 => MovedTo6(n);
    case 7 => MovedTo7(n);
    case 8 => MovedTo8(n);
    case 9 => MovedTo9(n);
    case 10 => MovedTo10(n);
    case 11 => MovedTo11(n);
  }

  lemma MovedTo1(n: bv64) ensures Moved(n, 1) == Moved(Moved(n, 0), 0) {}
  lemma MovedTo2(n: bv64) ensures Moved(n, 2) == Moved(Moved(n, 1), 0) {}
  lemma MovedTo3(n: bv64) ensures Moved(n, 3) == Moved(Moved(n, 2), 0) {}
  lemma MovedTo4(n: bv64) ensures Moved(n, 4) == Moved(Moved(n, 3), 0) {}
  lemma MovedTo5(n: bv64) ensures Moved(n, 5) == Moved(Moved(n, 4), 0) {}
  lemma MovedTo6(n: bv64) ensures Moved(n, 6) == Moved(Moved(n, 5), 0) {}
  lemma MovedTo7(n: bv64) ensures Moved(n, 7) == Moved(Moved(n, 6), 0) {}
  lemma MovedTo8(n: bv64) ensures Moved(n, 8) == Moved(Moved(n, 7), 0) {}
  lemma MovedTo9(n: bv64) ensures Moved(n, 9) == Moved(Moved(n, 8), 0) {}
  lemma MovedTo10(n: bv64) ensures Moved(n, 10) == Moved(Moved(n, 9), 0) {}
  lemma MovedTo11(n: bv64) ensures Moved(n, 11) == Moved(Moved(n, 10), 0) {}

  /** The mask and the two shifts put every character behind the dot into its new slot. */
  lemma {:induction false} MovedChars(n: bv64, d: nat)
    requires d <= 11
    ensures Chars(Moved(n, d)) == After(Chars(n), d, DOT)
  {
    if d == 0 {
      DropFirst(n);
    } else {
      MovedChars(n, d - 1);
      MovedOneFurther(n, d);
      DropFirst(Moved(n, d - 1));
    }
    AfterOneFurther(Chars(n), d, DOT);
  }

  // ---------------------------------------------------------------------
  // Properties of the suffix
  // ---------------------------------------------------------------------

  /** A name is determined by its characters: no bit is left out. */
  lemma CharsInjective(n: bv64, m: bv64)
    requires Chars(n) == Chars(m)
    ensures n == m
  {
    var c, d := Chars(n), Chars(m);
    assert c[0] == d[0] && c[1] == d[1] && c[2] == d[2] && c[3] == d[3] && c[4] == d[4] && c[5] == d[5] && c[6] == d[6];
    assert c[7] == d[7] && c[8] == d[8] && c[9] == d[9] && c[10] == d[10] && c[11] == d[11] && c[12] == d[12];
  }

  /** A name is determined by how it is written. */
  lemma WrittenInjective(n: bv64, m: bv64)
    requires AsWritten(n) == AsWritten(m)
    ensures n == m
  {
    TrimDeterminesPadded(Chars(n), Chars(m), DOT);
    CharsInjective(n, m);
  }

  /** Two names have the same suffix exactly when the same characters follow their last dots. */
  lemma SuffixDependsOnLastSegment(n: bv64, r: bv64, m: bv64, s: bv64)
    requires SuffixOf(n, r) && SuffixOf(m, s)
    ensures r == s <==> LastSegment(AsWritten(n), DOT) == LastSegment(AsWritten(m), DOT)
  {
    if AsWritten(r) == AsWritten(s) {
      WrittenInjective(r, s);
    }
  }

  lemma SuffixIdempotent(n: bv64, r: bv64)
    requires SuffixOf(n, r)
    ensures SuffixOf(r, r)
  {
    SegmentDotFree(AsWritten(n), DOT);
    SegmentDotFree(AsWritten(r), DOT);
  }

  /** The names that are their own suffix are exactly those written without a dot. */
  lemma SuffixFixedPoints(n: bv64, r: bv64)
    requires SuffixOf(n, r)
    ensures r == n <==> DOT !in AsWritten(n)
  {
    SegmentDotFree(AsWritten(n), DOT);
    if AsWritten(r) == AsWritten(n) {
      WrittenInjective(r, n);
    }
  }

  lemma SuffixZeroOnlyOnZero(n: bv64, r: bv64)
    requires SuffixOf(n, r)
    ensures r == 0 <==> n == 0
  {
    ZeroIsWrittenEmpty(n);
    ZeroIsWrittenEmpty(r);
  }

  lemma ZeroIsWrittenEmpty(n: bv64)
    ensures n == 0 <==> AsWritten(n) == []
  {
    TrimIs(Chars(0), 0, DOT);
    if AsWritten(n) == [] {
      WrittenInjective(n, 0);
    }
  }
}
