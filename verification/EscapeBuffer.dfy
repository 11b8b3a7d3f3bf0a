/**
 LnmcsysDb::escape_strings: escapes its arguments one after another into a fixed
 buffer, each followed by a NUL, under a running budget. The escaper belongs to the
 connection; it may fail, and otherwise writes at most twice as many bytes as it
 reads.
 */
module EscapeBuffer {
  import opened CStrings
  import opened Wrappers

  /** The contract of MysqlConnection::escapeString; None stands for a negative return value. */
  ghost predicate Escaper(esc: string -> Option<string>) {
    forall s: string :: esc(s).Some? ==> |esc(s).value| <= 2 * |s| && NulFree(esc(s).value)
  }

  // ---------------------------------------------------------------------
  // Specification
  // ---------------------------------------------------------------------

  predicate AllEscaped(args: seq<string>, esc: string -> Option<string>) {
    forall k | 0 <= k < |args| :: esc(args[k]).Some?
  }

  function EscapeAll(args: seq<string>, esc: string -> Option<string>): seq<string>
    requires AllEscaped(args, esc)
  {
    seq(|args|, i requires 0 <= i < |args| => esc(args[i]).value)
  }

  /** Strings one after another, each with its terminator. */
  function Pack(strings: seq<string>): string {
    if strings == [] then "" else strings[0] + [NUL] + Pack(strings[1..])
  }

  /** strlen(s) characters. */
  function CString(s: seq<char>): (c: string)
    ensures |c| <= |s|
  {
    if s == [] || s[0] == NUL then "" else [s[0]] + CString(s[1..])
  }

  /** A caller walking the buffer: read a string, step over its terminator, n times. */
  function ReadStrings(buf: seq<char>, n: nat): seq<string>
    decreases n
  {
    if n == 0 then []
    else
      var c := CString(buf);
      [c] + ReadStrings(buf[if |c| < |buf| then |c| + 1 else |c|..], n - 1)
  }

  /** The bytes used once every argument has been escaped. */
  function Used(args: seq<string>, esc: string -> Option<string>): nat {
    if args == [] then 0
    else
      var last := esc(args[|args| - 1]);
      Used(args[..|args| - 1], esc) + 1 + if last.Some? then |last.value| else 0
  }

  /** The guard of the source for the i-th argument. */
  predicate Fits(size: nat, args: seq<string>, esc: string -> Option<string>, i: nat)
    requires i < |args|
  {
    size - Used(args[..i], esc) >= 2 * |args[i]| + 1
  }

  predicate AcceptedBefore(size: nat, args: seq<string>, esc: string -> Option<string>, i: nat)
    requires i <= |args|
  {
    forall k | 0 <= k < i :: Fits(size, args, esc, k) && esc(args[k]).Some?
  }

  /** The first argument that is not accepted decides the error. */
  predicate RefusedAt(size: nat, args: seq<string>, esc: string -> Option<string>, i: nat, error: Error)
    requires i < |args|
  {
    && AcceptedBefore(size, args, esc, i)
    && if Fits(size, args, esc, i) then error == MysqlError && esc(args[i]).None? else error == ParamError
  }

  /** The sum of what the guard asks for. */
  function Budget(args: seq<string>): nat {
    if args == [] then 0 else Budget(args[..|args| - 1]) + 2 * |args[|args| - 1]| + 1
  }

  // ---------------------------------------------------------------------
  // The loop
  // ---------------------------------------------------------------------

  method EscapeStrings(buf: array<char>, args: seq<string>, esc: string -> Option<string>) returns (r: Result<()>)
    requires buf.Length > 0 && Escaper(esc)
    modifies buf
    ensures r.Ok? <==> AcceptedBefore(buf.Length, args, esc, |args|)
    ensures r.Ok? ==>
              && AllEscaped(args, esc)
              && Pack(EscapeAll(args, esc)) <= buf[..]
              && ReadStrings(buf[..], |args|) == EscapeAll(args, esc)
    ensures r.Err? ==> exists i | 0 <= i < |args| :: RefusedAt(buf.Length, args, esc, i, r.error)
    ensures r.Err? ==> r.error == ParamError || r.error == MysqlError
    ensures r == Err(ParamError) ==> exists i | 0 <= i < |args| :: !Fits(buf.Length, args, esc, i)
    ensures r == Err(MysqlError) ==> exists i | 0 <= i < |args| :: Fits(buf.Length, args, esc, i) && esc(args[i]).None?
  {
    buf[0] := NUL;
    var start: nat := 0;
    var left: int := buf.Length;
    var i := 0;
    while i < |args|
      invariant 0 <= i <= |args|
      invariant start + left == buf.Length && left >= 0
      invariant AcceptedBefore(buf.Length, args, esc, i)
      invariant Written(buf[..], args[..i], esc, start)
    {
      var str := args[i];
      assert Fits(buf.Length, args, esc, i) <==> left >= |str| * 2 + 1;
      if left < |str| * 2 + 1 {
        assert RefusedAt(buf.Length, args, esc, i, ParamError);
        return Err(ParamError);
      }
      var ret := esc(str);
      if ret.None? {
        assert RefusedAt(buf.Length, args, esc, i, MysqlError);
        return Err(MysqlError);
      }
      AcceptNext(buf.Length, args, esc, i);
      Store(buf, start, ret.value, args[..i], str, esc);
      var offset := |ret.value| + 1;
      left := left - offset;
      start := start + offset;
      i := i + 1;
    }
    assert args[..i] == args;
    ReadWritten(buf[..], args, esc, start);
    return Ok(());
  }

  lemma AcceptNext(size: nat, args: seq<string>, esc: string -> Option<string>, i: nat)
    requires i < |args| && AcceptedBefore(size, args, esc, i) && Fits(size, args, esc, i) && esc(args[i]).Some?
    ensures AcceptedBefore(size, args, esc, i + 1)
    ensures args[..i + 1] == args[..i] + [args[i]]
  {
  }

  lemma ReadWritten(buf: seq<char>, args: seq<string>, esc: string -> Option<string>, start: nat)
    requires Escaper(esc) && Written(buf, args, esc, start)
    ensures Pack(EscapeAll(args, esc)) <= buf
    ensures ReadStrings(buf, |args|) == EscapeAll(args, esc)
  {
    ReadBack(EscapeAll(args, esc), buf[start..]);
    assert buf == buf[..start] + buf[start..];
  }

  /** The escaped arguments fill the buffer up to start. */
  ghost predicate Written(buf: seq<char>, args: seq<string>, esc: string -> Option<string>, start: nat) {
    && AllEscaped(args, esc)
    && start <= |buf| && start == Used(args, esc)
    && buf[..start] == Pack(EscapeAll(args, esc))
  }

  /** What the escaper leaves in the buffer: the text and its terminator, and nothing else changed. */
  method Store(buf: array<char>, start: nat, text: string,
               ghost args: seq<string>, ghost arg: string, ghost esc: string -> Option<string>)
    requires start + |text| + 1 <= buf.Length
    requires Written(buf[..], args, esc, start) && esc(arg) == Some(text)
    modifies buf
    ensures buf[..] == old(buf[..start]) + text + [NUL] + old(buf[start + |text| + 1..])
    ensures Written(buf[..], args + [arg], esc, start + |text| + 1)
  {
    ghost var before := buf[..];
    forall k | 0 <= k < |text| {
      buf[start + k] := text[k];
    }
    buf[start + |text|] := NUL;
    assert buf[..] == before[..start] + text + [NUL] + before[start + |text| + 1..];
    WriteOne(before, buf[..], args, arg, esc, start);
  }

  lemma WriteOne(before: seq<char>, after: seq<char>, args: seq<string>, arg: string, esc: string -> Option<string>, start: nat)
    requires Written(before, args, esc, start) && esc(arg).Some?
    requires start + |esc(arg).value| + 1 <= |before|
    requires after == before[..start] + esc(arg).value + [NUL] + before[start + |esc(arg).value| + 1..]
    ensures Written(after, args + [arg], esc, start + |esc(arg).value| + 1)
  {
    assert (args + [arg])[..|args|] == args;
    assert EscapeAll(args + [arg], esc) == EscapeAll(args, esc) + [esc(arg).value];
    PackSnoc(EscapeAll(args, esc), esc(arg).value);
  }

  lemma {:induction false} PackSnoc(strings: seq<string>, s: string)
    ensures Pack(strings + [s]) == Pack(strings) + s + [NUL]
  {
    if strings == [] {
      assert [] + [s] == [s] && [s][1..] == [];
    } else {
      assert (strings + [s])[1..] == strings[1..] + [s];
      PackSnoc(strings[1..], s);
    }
  }

  // ---------------------------------------------------------------------
  // Reading back, and when nothing is rejected
  // ---------------------------------------------------------------------

  lemma {:induction false} CStringOf(s: string, rest: seq<char>)
    requires NulFree(s)
    ensures CString(s + [NUL] + rest) == s
  {
    if s == "" {
      assert s + [NUL] + rest == [NUL] + rest;
    } else {
      CStringOf(s[1..], rest);
      assert (s + [NUL] + rest)[1..] == s[1..] + [NUL] + rest;
    }
  }

  lemma ReadFirst(s: string, tail: seq<char>, n: nat)
    requires NulFree(s) && n > 0
    ensures ReadStrings(s + [NUL] + tail, n) == [s] + ReadStrings(tail, n - 1)
  {
    CStringOf(s, tail);
    assert (s + [NUL] + tail)[|s| + 1..] == tail;
  }

  /** Walking over packed strings gives them back, whatever follows. */
  lemma {:induction false} ReadBack(strings: seq<string>, rest: seq<char>)
    requires forall k | 0 <= k < |strings| :: NulFree(strings[k])
    ensures ReadStrings(Pack(strings) + rest, |strings|) == strings
  {
    if strings != [] {
      var tail := Pack(strings[1..]) + rest;
      assert Pack(strings) + rest == strings[0] + [NUL] + tail;
      ReadFirst(strings[0], tail, |strings|);
      ReadBack(strings[1..], rest);
    }
  }

  /** Arguments whose worst case fits together are never refused for their length. */
  lemma BudgetSuffices(size: nat, args: seq<string>, esc: string -> Option<string>)
    requires Escaper(esc) && Budget(args) <= size
    ensures forall i | 0 <= i < |args| :: Fits(size, args, esc, i)
  {
    forall i | 0 <= i < |args| ensures Fits(size, args, esc, i) {
      FitsWithinBudget(size, args, esc, i);
    }
  }

  lemma FitsWithinBudget(size: nat, args: seq<string>, esc: string -> Option<string>, i: nat)
    requires Escaper(esc) && Budget(args) <= size && i < |args|
    ensures Fits(size, args, esc, i)
  {
    var first := args[..i + 1];
    assert first[..i] == args[..i] && first[i] == args[i];
    assert Budget(first) == Budget(args[..i]) + 2 * |args[i]| + 1;
    UsedWithinBudget(args[..i], esc);
    BudgetMonotone(args, i + 1);
  }

  lemma {:induction false} UsedWithinBudget(args: seq<string>, esc: string -> Option<string>)
    requires Escaper(esc)
    ensures Used(args, esc) <= Budget(args)
  {
    if args != [] {
      UsedWithinBudget(args[..|args| - 1], esc);
      assert esc(args[|args| - 1]).Some? ==> |esc(args[|args| - 1]).value| <= 2 * |args[|args| - 1]|;
    }
  }

  lemma {:induction false} BudgetMonotone(args: seq<string>, i: nat)
    requires i <= |args|
    ensures Budget(args[..i]) <= Budget(args)
  {
    if i < |args| {
      var init := args[..|args| - 1];
      BudgetMonotone(init, i);
      assert init[..i] == args[..i];
    } else {
      assert args[..i] == args;
    }
  }
}
