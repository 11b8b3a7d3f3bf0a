/**
 TaskUtil::get_mcinfo_info_from_value: four numbers cut out of a local copy of the
 value with strtok_r, and the rest as content. strtok_r writes terminators into the
 copy and remembers where it stopped.
 */
module McinfoParser {
  import opened CStrings
  import opened Wrappers
  import opened Decimals
  import opened Arith

  // ---------------------------------------------------------------------
  // Specification on strings
  // ---------------------------------------------------------------------

  /** How many delimiters lead s. */
  function Leading(s: string, delim: set<char>): (n: nat)
    ensures n <= |s|
    ensures n < |s| ==> s[n] !in delim
  {
    if s != "" && s[0] in delim then 1 + Leading(s[1..], delim) else 0
  }

  /** How many characters precede the first delimiter. */
  function WordLength(s: string, delim: set<char>): (n: nat)
    ensures n <= |s|
    ensures n < |s| ==> s[n] in delim
  {
    if s == "" || s[0] in delim then 0 else 1 + WordLength(s[1..], delim)
  }

  function Skip(s: string, delim: set<char>): string {
    s[Leading(s, delim)..]
  }

  function Word(s: string, delim: set<char>): string {
    s[..WordLength(s, delim)]
  }

  /** What strtok_r continues with behind the first word. */
  function Rest(s: string, delim: set<char>): string {
    var n := WordLength(s, delim);
    if n < |s| then s[n + 1..] else ""
  }

  /** The next field, what follows it, and whether a delimiter stands between. */
  datatype Field = NoField | Field(word: string, rest: string, delimited: bool)

  function NextField(text: string, delim: set<char>): Field {
    var s := Skip(text, delim);
    if s == "" then NoField else Field(Word(s, delim), Rest(s, delim), WordLength(s, delim) < |s|)
  }

  predicate IsSpace(c: char) {
    c in {' ', '\t', '\n', '\r', 0xB as char, 0xC as char}
  }

  function SkipSpace(s: string): string {
    if s != "" && IsSpace(s[0]) then SkipSpace(s[1..]) else s
  }

  /** The number whose digits lead s, continuing from acc. */
  function ScanDigits(s: string, acc: nat): nat {
    if s == "" || !IsDigit(s[0]) then acc else ScanDigits(s[1..], 10 * acc + DigitValue(s[0]))
  }

  /** sscanf with %ld or %u: None when no number is there. */
  function Scan(s: string): Option<int> {
    var t := SkipSpace(s);
    var negative := t != "" && t[0] == '-';
    var digits := if t != "" && (t[0] == '-' || t[0] == '+') then t[1..] else t;
    if digits == "" || !IsDigit(digits[0]) then None
    else Some(if negative then 0 - ScanDigits(digits, 0) else ScanDigits(digits, 0))
  }

  const TWO63 := 0x8000_0000_0000_0000

  /**
   %ld into a variable that keeps its value when nothing is converted. What is stored for a number
   that does not fit is left open by the C standard; overflow stands for the library's choice.
   */
  function ScanLong(s: string, before: int, overflow: string -> int): int {
    var r := Scan(s);
    if r.None? then before else if -TWO63 <= r.value < TWO63 then r.value else overflow(s)
  }

  /** %u: a sign is accepted, and negates modulo 2^32. */
  function ScanUnsigned(s: string, before: nat, overflow: string -> int): nat {
    var r := Scan(s);
    if r.None? then before else if 0 - TWO32 < r.value < TWO32 then r.value % TWO32 else overflow(s) % TWO32
  }

  datatype Mcinfo = Mcinfo(createTime: int, expireTime: int, qps: nat, delay: nat, content: string)

  /**
   The out-parameters as each outcome leaves them. Overrun: the fourth field ends the value, and the
   content would be read from behind its terminator.
   */
  datatype Outcome = Parsed(info: Mcinfo) | FormatError(info: Mcinfo) | Overrun(info: Mcinfo)

  /** The words found by several calls of strtok_r, and the last field; NoField once a call finds none. */
  datatype Cuts = Cuts(words: seq<string>, last: Field)

  function CutOne(text: string, delim: set<char>): Cuts {
    var f := NextField(text, delim);
    if f.NoField? then Cuts([], NoField) else Cuts([f.word], f)
  }

  function CutTwo(text: string, delim: set<char>): Cuts {
    var f := NextField(text, delim);
    if f.NoField? then Cuts([], NoField) else Behind(f.word, CutOne(f.rest, delim))
  }

  function CutThree(text: string, delim: set<char>): Cuts {
    var f := NextField(text, delim);
    if f.NoField? then Cuts([], NoField) else Behind(f.word, CutTwo(f.rest, delim))
  }

  function CutFour(text: string, delim: set<char>): Cuts {
    var f := NextField(text, delim);
    if f.NoField? then Cuts([], NoField) else Behind(f.word, CutThree(f.rest, delim))
  }

  function Behind(word: string, c: Cuts): Cuts {
    c.(words := [word] + c.words)
  }

  /** The numbers are assigned one by one, as far as there are words. */
  function Assigned(words: seq<string>, before: Mcinfo, overflow: string -> int): Mcinfo {
    var n := |words|;
    Mcinfo(if n > 0 then ScanLong(words[0], before.createTime, overflow) else before.createTime,
           if n > 1 then ScanLong(words[1], before.expireTime, overflow) else before.expireTime,
           if n > 2 then ScanUnsigned(words[2], before.qps, overflow) else before.qps,
           if n > 3 then ScanUnsigned(words[3], before.delay, overflow) else before.delay,
           before.content)
  }

  function Interpret(c: Cuts, before: Mcinfo, overflow: string -> int): Outcome {
    var info := Assigned(c.words, before, overflow);
    if c.last.NoField? then FormatError(info)
    else if !c.last.delimited then Overrun(info)
    else Parsed(info.(content := c.last.rest))
  }

  function ParseValue(value: string, delim: set<char>, cap: nat, before: Mcinfo, overflow: string -> int): Outcome
    requires cap > 0
  {
    Interpret(CutFour(Clip(value, cap), delim), before, overflow)
  }

  // ---------------------------------------------------------------------
  // The buffer
  // ---------------------------------------------------------------------

  /** A C string: text starts at from and is terminated behind its last character. */
  ghost predicate Holds(buf: seq<char>, from: nat, text: string) {
    && from + |text| < |buf|
    && buf[from..from + |text|] == text
    && buf[from + |text|] == NUL
    && NulFree(text)
  }

  lemma HoldsTail(buf: seq<char>, from: nat, text: string, k: nat)
    requires Holds(buf, from, text) && k <= |text|
    ensures Holds(buf, from + k, text[k..])
  {
    assert buf[from + k..from + |text|] == buf[from..from + |text|][k..];
  }

  /** The k-th character of a C string, its terminator included. */
  function CharAt(text: string, k: nat): char
    requires k <= |text|
  {
    if k < |text| then text[k] else NUL
  }

  lemma HoldsCharAt(buf: seq<char>, from: nat, text: string, k: nat)
    requires Holds(buf, from, text) && k <= |text|
    ensures buf[from + k] == CharAt(text, k)
    ensures buf[from + k] == NUL <==> k == |text|
  {
    if k < |text| {
      assert buf[from..from + |text|][k] == text[k];
    }
  }

  method FindWordStart(buf: array<char>, from: nat, delim: set<char>, ghost text: string) returns (i: nat)
    requires Holds(buf[..], from, text)
    ensures i == from + Leading(text, delim)
  {
    i := from;
    HoldsCharAt(buf[..], from, text, 0);
    while buf[i] != NUL && buf[i] in delim
      invariant from <= i <= from + |text|
      invariant buf[i] == CharAt(text, i - from)
      invariant Leading(text, delim) == i - from + Leading(text[i - from..], delim)
      decreases from + |text| - i
    {
      HoldsCharAt(buf[..], from, text, i - from);
      HoldsCharAt(buf[..], from, text, i - from + 1);
      assert text[i - from..][1..] == text[i + 1 - from..];
      i := i + 1;
    }
    HoldsCharAt(buf[..], from, text, i - from);
  }

  method FindWordEnd(buf: array<char>, from: nat, delim: set<char>, ghost text: string) returns (j: nat)
    requires Holds(buf[..], from, text)
    ensures j == from + WordLength(text, delim)
  {
    j := from;
    HoldsCharAt(buf[..], from, text, 0);
    while buf[j] != NUL && buf[j] !in delim
      invariant from <= j <= from + |text|
      invariant buf[j] == CharAt(text, j - from)
      invariant WordLength(text, delim) == j - from + WordLength(text[j - from..], delim)
      decreases from + |text| - j
    {
      HoldsCharAt(buf[..], from, text, j - from);
      HoldsCharAt(buf[..], from, text, j - from + 1);
      assert text[j - from..][1..] == text[j + 1 - from..];
      j := j + 1;
    }
    HoldsCharAt(buf[..], from, text, j - from);
  }

  /** Overwriting the character behind a prefix of the text splits it in two. */
  lemma HoldsSplit(buf: seq<char>, from: nat, text: string, k: nat)
    requires Holds(buf, from, text) && k < |text|
    ensures Holds(buf[from + k := NUL], from, text[..k])
    ensures Holds(buf[from + k := NUL], from + k + 1, text[k + 1..])
  {
    var cut := buf[from + k := NUL];
    assert buf[from..from + |text|][..k] == cut[from..from + k];
    assert buf[from..from + |text|][k + 1..] == cut[from + k + 1..from + |text|];
  }

  /** The word of f stands at p, and what follows it at save. */
  ghost predicate Cut(buf: seq<char>, f: Field, p: nat, save: nat)
    requires f.Field?
  {
    && Holds(buf, p, f.word)
    && save == p + |f.word| + (if f.delimited then 1 else 0)
    && Holds(buf, save, f.rest)
  }

  lemma CutAtEnd(buf: seq<char>, p: nat, s: string)
    requires Holds(buf, p, s)
    ensures Cut(buf, Field(s, "", false), p, p + |s|)
  {
    HoldsTail(buf, p, s, |s|);
    assert s[|s|..] == "";
  }

  lemma CutInside(buf: seq<char>, p: nat, s: string, k: nat)
    requires Holds(buf, p, s) && k < |s|
    ensures Cut(buf[p + k := NUL], Field(s[..k], s[k + 1..], true), p, p + k + 1)
  {
    HoldsSplit(buf, p, s, k);
  }

  method Terminate(buf: array<char>, j: nat)
    requires j < buf.Length
    modifies buf
    ensures buf[..] == old(buf[..])[j := NUL]
  {
    buf[j] := NUL;
  }

  /** The field at the start of a text that begins with a word. */
  function FirstField(s: string, delim: set<char>): Field {
    Field(Word(s, delim), Rest(s, delim), WordLength(s, delim) < |s|)
  }

  lemma FirstFieldForms(s: string, delim: set<char>)
    ensures var k := WordLength(s, delim);
            FirstField(s, delim) == if k == |s| then Field(s, "", false) else Field(s[..k], s[k + 1..], true)
  {
    assert s[..|s|] == s;
  }

  method CutWord(buf: array<char>, p: nat, delim: set<char>, ghost s: string) returns (save: nat)
    requires Holds(buf[..], p, s)
    modifies buf
    ensures Cut(buf[..], FirstField(s, delim), p, save)
  {
    var j := FindWordEnd(buf, p, delim, s);
    save := CutAt(buf, p, j, s);
    FirstFieldForms(s, delim);
  }

  method CutAt(buf: array<char>, p: nat, j: nat, ghost s: string) returns (save: nat)
    requires Holds(buf[..], p, s) && p <= j <= p + |s|
    modifies buf
    ensures var k := j - p;
            Cut(buf[..], if k == |s| then Field(s, "", false) else Field(s[..k], s[k + 1..], true), p, save)
  {
    HoldsCharAt(buf[..], p, s, j - p);
    if buf[j] == NUL {
      save := j;
      CutAtEnd(buf[..], p, s);
    } else {
      CutInside(buf[..], p, s, j - p);
      Terminate(buf, j);
      save := j + 1;
    }
  }

  /** strtok_r, started at from where text stands. */
  method Strtok(buf: array<char>, from: nat, delim: set<char>, ghost text: string) returns (p: Option<nat>, save: nat)
    requires Holds(buf[..], from, text)
    modifies buf
    ensures p.None? <==> NextField(text, delim).NoField?
    ensures p.Some? ==> Cut(buf[..], NextField(text, delim), p.value, save)
  {
    var i := FindWordStart(buf, from, delim, text);
    ghost var s := Skip(text, delim);
    HoldsTail(buf[..], from, text, i - from);
    HoldsCharAt(buf[..], i, s, 0);
    if buf[i] == NUL {
      return None, i;
    }
    p := Some(i);
    save := CutWord(buf, i, delim, s);
  }

  /** strlen and copy of the C string at p. */
  method ReadString(buf: array<char>, p: nat, ghost text: string) returns (s: string)
    requires Holds(buf[..], p, text)
    ensures s == text
  {
    var q := p;
    HoldsCharAt(buf[..], p, text, 0);
    while buf[q] != NUL
      invariant p <= q <= p + |text|
      invariant buf[q] == CharAt(text, q - p)
      decreases p + |text| - q
    {
      HoldsCharAt(buf[..], p, text, q - p);
      HoldsCharAt(buf[..], p, text, q - p + 1);
      q := q + 1;
    }
    HoldsCharAt(buf[..], p, text, q - p);
    s := buf[p..q];
    assert buf[..][p..q] == buf[p..q];
  }

  /** The local copy. */
  method CopyIn(value: string, cap: nat) returns (buf: array<char>)
    requires cap > 0 && NulFree(value)
    ensures fresh(buf) && buf.Length == cap && Holds(buf[..], 0, Clip(value, cap))
  {
    var s := Clip(value, cap);
    buf := new char[cap](i => if 0 <= i < |s| then s[i] else NUL);
    assert buf[..][0..|s|] == s;
  }

  /** One call of strtok_r and the word it finds. */
  method ReadField(buf: array<char>, from: nat, delim: set<char>, ghost text: string)
    returns (found: bool, word: string, p: nat, save: nat)
    requires Holds(buf[..], from, text)
    modifies buf
    ensures found <==> NextField(text, delim).Field?
    ensures found ==> word == NextField(text, delim).word && Cut(buf[..], NextField(text, delim), p, save)
  {
    var tok;
    tok, save := Strtok(buf, from, delim, text);
    found, word, p := tok.Some?, "", 0;
    if found {
      p := tok.value;
      word := ReadString(buf, p, NextField(text, delim).word);
    }
  }

  /** The four calls of strtok_r, and the step over the last terminator. */
  method ReadFour(buf: array<char>, delim: set<char>, ghost text: string) returns (c: Cuts)
    requires Holds(buf[..], 0, text)
    modifies buf
    ensures c == CutFour(text, delim)
  {
    var found, word, p, save := ReadField(buf, 0, delim, text);
    if !found { return Cuts([], NoField); }
    c := ReadThree(buf, save, delim, NextField(text, delim).rest);
    c := Behind(word, c);
  }

  method ReadThree(buf: array<char>, from: nat, delim: set<char>, ghost text: string) returns (c: Cuts)
    requires Holds(buf[..], from, text)
    modifies buf
    ensures c == CutThree(text, delim)
  {
    var found, word, p, save := ReadField(buf, from, delim, text);
    if !found { return Cuts([], NoField); }
    c := ReadTwo(buf, save, delim, NextField(text, delim).rest);
    c := Behind(word, c);
  }

  method ReadTwo(buf: array<char>, from: nat, delim: set<char>, ghost text: string) returns (c: Cuts)
    requires Holds(buf[..], from, text)
    modifies buf
    ensures c == CutTwo(text, delim)
  {
    var found, word, p, save := ReadField(buf, from, delim, text);
    if !found { return Cuts([], NoField); }
    var last := ReadLast(buf, save, delim, NextField(text, delim).rest);
    c := Behind(word, if last.NoField? then Cuts([], NoField) else Cuts([last.word], last));
  }

  /** The fourth field, and p += strlen(p) + 1 to the content. */
  method ReadLast(buf: array<char>, from: nat, delim: set<char>, ghost text: string) returns (f: Field)
    requires Holds(buf[..], from, text)
    modifies buf
    ensures f == NextField(text, delim)
  {
    var found, w, p, save := ReadField(buf, from, delim, text);
    if !found { return NoField; }
    f := ReadContent(buf, w, p, save, NextField(text, delim));
    NothingBehind(text, delim);
  }

  method ReadContent(buf: array<char>, w: string, p: nat, save: nat, ghost field: Field) returns (f: Field)
    requires field.Field? && w == field.word && Cut(buf[..], field, p, save)
    ensures f == if field.delimited then field else Field(field.word, "", false)
  {
    var content := p + |w| + 1;
    if content > save {
      return Field(w, "", false);
    }
    var text := ReadString(buf, content, field.rest);
    return Field(w, text, true);
  }

  lemma NothingBehind(text: string, delim: set<char>)
    ensures NextField(text, delim).Field? && !NextField(text, delim).delimited ==> NextField(text, delim).rest == ""
  {
  }

  /** get_mcinfo_info_from_value; before holds the out-parameters as the caller left them. */
  method GetMcinfo(value: string, delim: set<char>, cap: nat, before: Mcinfo, overflow: string -> int)
    returns (r: Outcome)
    requires cap > 0 && NulFree(value)
    ensures r == ParseValue(value, delim, cap, before, overflow)
  {
    var buf := CopyIn(value, cap);
    var cuts := ReadFour(buf, delim, Clip(value, cap));
    r := Interpret(cuts, before, overflow);
  }

  // ---------------------------------------------------------------------
  // Round trip
  // ---------------------------------------------------------------------

  function SignedDecimal(n: int): string {
    if n < 0 then "-" + Decimal(-n) else Decimal(n)
  }

  lemma {:induction false} ScanDigitsSnoc(s: string, c: char, acc: nat)
    requires IsDigit(c) && forall i | 0 <= i < |s| :: IsDigit(s[i])
    ensures ScanDigits(s + [c], acc) == 10 * ScanDigits(s, acc) + DigitValue(c)
  {
    if s == "" {
      assert s + [c] == [c] && [c][1..] == "";
    } else {
      assert (s + [c])[1..] == s[1..] + [c];
      ScanDigitsSnoc(s[1..], c, 10 * acc + DigitValue(s[0]));
    }
  }

  lemma {:induction false} ScanDecimal(n: nat)
    ensures ScanDigits(Decimal(n), 0) == n
  {
    if n < 10 {
      ScanDigitsSnoc("", DigitChar(n), 0);
      assert "" + [DigitChar(n)] == Decimal(n);
    } else {
      ScanDecimal(n / 10);
      ScanDigitsSnoc(Decimal(n / 10), DigitChar(n % 10), 0);
    }
  }

  lemma ScanSigned(n: int)
    ensures Scan(SignedDecimal(n)) == Some(n)
  {
    var s := SignedDecimal(n);
    if n < 0 {
      assert s[0] == '-' && s[1..] == Decimal(-n);
      ScanDecimal(-n);
    } else {
      ScanDecimal(n);
    }
  }

  predicate DelimiterSet(delim: set<char>) {
    forall c | c in delim :: !IsDigit(c) && c != '-'
  }

  lemma {:induction false} WordLengthOf(f: string, s: string, delim: set<char>)
    requires f <= s && (forall i | 0 <= i < |f| :: f[i] !in delim)
    requires |f| < |s| ==> s[|f|] in delim
    ensures WordLength(s, delim) == |f|
  {
    if f != "" {
      assert s[0] == f[0] && f[1..] <= s[1..];
      WordLengthOf(f[1..], s[1..], delim);
    }
  }

  /** A number and its delimiter in front of any text are the next field. */
  lemma NumberAhead(n: int, d: char, tail: string, delim: set<char>)
    requires DelimiterSet(delim) && d in delim
    ensures NextField(SignedDecimal(n) + [d] + tail, delim) == Field(SignedDecimal(n), tail, true)
  {
    var f := SignedDecimal(n);
    var s := f + [d] + tail;
    assert forall i | 0 <= i < |f| :: f[i] !in delim;
    assert s[0] == f[0];
    WordLengthOf(f, s, delim);
    assert s[..|f|] == f && s[|f| + 1..] == tail && s[0..] == s;
  }

  /** A value as it is stored: four numbers, each with a delimiter behind it, and the content. */
  function Stored(a: int, b: int, c: int, e: int, d: seq<char>, content: string): string
    requires |d| == 4
  {
    SignedDecimal(a) + [d[0]] +
    (SignedDecimal(b) + [d[1]] + (SignedDecimal(c) + [d[2]] + (SignedDecimal(e) + [d[3]] + content)))
  }

  lemma CutTwoAhead(c: int, d: char, rest: string, delim: set<char>, last: Field)
    requires DelimiterSet(delim) && d in delim && NextField(rest, delim) == last && last.Field?
    ensures CutTwo(SignedDecimal(c) + [d] + rest, delim) == Behind(SignedDecimal(c), Cuts([last.word], last))
  {
    NumberAhead(c, d, rest, delim);
  }

  lemma CutThreeAhead(b: int, d: char, rest: string, delim: set<char>, cuts: Cuts)
    requires DelimiterSet(delim) && d in delim && CutTwo(rest, delim) == cuts
    ensures CutThree(SignedDecimal(b) + [d] + rest, delim) == Behind(SignedDecimal(b), cuts)
  {
    NumberAhead(b, d, rest, delim);
  }

  lemma CutFourAhead(a: int, d: char, rest: string, delim: set<char>, cuts: Cuts)
    requires DelimiterSet(delim) && d in delim && CutThree(rest, delim) == cuts
    ensures CutFour(SignedDecimal(a) + [d] + rest, delim) == Behind(SignedDecimal(a), cuts)
  {
    NumberAhead(a, d, rest, delim);
  }

  /** The four words, and the last field, as CutFour puts them together. */
  function FourWords(a: string, b: string, c: string, last: Field): Cuts
    requires last.Field?
  {
    Behind(a, Behind(b, Behind(c, Cuts([last.word], last))))
  }

  lemma CutThreeNumbers(b: int, c: int, d1: char, d2: char, tail: string, delim: set<char>, last: Field)
    requires DelimiterSet(delim) && d1 in delim && d2 in delim && NextField(tail, delim) == last && last.Field?
    ensures CutThree(SignedDecimal(b) + [d1] + (SignedDecimal(c) + [d2] + tail), delim) ==
            Behind(SignedDecimal(b), Behind(SignedDecimal(c), Cuts([last.word], last)))
  {
    CutTwoAhead(c, d2, tail, delim, last);
    CutThreeAhead(b, d1, SignedDecimal(c) + [d2] + tail, delim, Behind(SignedDecimal(c), Cuts([last.word], last)));
  }

  /** Three numbers in front of a text with one field more. */
  lemma CutFourNumbers(a: int, b: int, c: int, d0: char, d1: char, d2: char, tail: string, delim: set<char>, last: Field)
    requires DelimiterSet(delim) && d0 in delim && d1 in delim && d2 in delim
    requires NextField(tail, delim) == last && last.Field?
    ensures CutFour(SignedDecimal(a) + [d0] + (SignedDecimal(b) + [d1] + (SignedDecimal(c) + [d2] + tail)), delim) ==
            FourWords(SignedDecimal(a), SignedDecimal(b), SignedDecimal(c), last)
  {
    CutThreeNumbers(b, c, d1, d2, tail, delim, last);
    CutFourAhead(a, d0, SignedDecimal(b) + [d1] + (SignedDecimal(c) + [d2] + tail), delim,
                 Behind(SignedDecimal(b), Behind(SignedDecimal(c), Cuts([last.word], last))));
  }

  lemma CutStored(a: int, b: int, c: int, e: int, d: seq<char>, content: string, delim: set<char>)
    requires DelimiterSet(delim) && |d| == 4 && (forall i | 0 <= i < 4 :: d[i] in delim)
    ensures CutFour(Stored(a, b, c, e, d, content), delim) ==
            FourWords(SignedDecimal(a), SignedDecimal(b), SignedDecimal(c), Field(SignedDecimal(e), content, true))
  {
    NumberAhead(e, d[3], content, delim);
    CutFourNumbers(a, b, c, d[0], d[1], d[2], SignedDecimal(e) + [d[3]] + content, delim,
                   Field(SignedDecimal(e), content, true));
  }

  /**
   Stored values are read back exactly; delimiters inside the content, or at its start, are left
   alone.
   */
  lemma ParseReadsBack(a: int, b: int, c: nat, e: nat, d: seq<char>, content: string,
                       delim: set<char>, cap: nat, before: Mcinfo, overflow: string -> int)
    requires DelimiterSet(delim) && |d| == 4 && (forall i | 0 <= i < 4 :: d[i] in delim)
    requires -0x8000_0000_0000_0000 <= a < 0x8000_0000_0000_0000 && c < 0x1_0000_0000
    requires -0x8000_0000_0000_0000 <= b < 0x8000_0000_0000_0000 && e < 0x1_0000_0000
    requires |Stored(a, b, c, e, d, content)| < cap
    ensures ParseValue(Stored(a, b, c, e, d, content), delim, cap, before, overflow) ==
            Parsed(Mcinfo(a, b, c, e, content))
  {
    CutStored(a, b, c, e, d, content, delim);
    InterpretNumbers(a, b, c, e, Field(SignedDecimal(e), content, true), before, overflow);
  }

  lemma AssignedNumbers(a: int, b: int, c: nat, e: nat, before: Mcinfo, overflow: string -> int)
    requires -TWO63 <= a < TWO63 && -TWO63 <= b < TWO63 && c < TWO32 && e < TWO32
    ensures Assigned([SignedDecimal(a), SignedDecimal(b), SignedDecimal(c), SignedDecimal(e)], before, overflow) ==
            Mcinfo(a, b, c, e, before.content)
  {
    ScanSigned(a);
    ScanSigned(b);
    ScanUnsignedOf(c, before.qps, overflow);
    ScanUnsignedOf(e, before.delay, overflow);
  }

  lemma InterpretNumbers(a: int, b: int, c: nat, e: nat, last: Field, before: Mcinfo, overflow: string -> int)
    requires -TWO63 <= a < TWO63 && -TWO63 <= b < TWO63 && c < TWO32 && e < TWO32
    requires last.Field? && last.word == SignedDecimal(e)
    ensures Interpret(FourWords(SignedDecimal(a), SignedDecimal(b), SignedDecimal(c), last), before, overflow) ==
            if last.delimited then Parsed(Mcinfo(a, b, c, e, last.rest)) else Overrun(Mcinfo(a, b, c, e, before.content))
  {
    assert FourWords(SignedDecimal(a), SignedDecimal(b), SignedDecimal(c), last).words ==
           [SignedDecimal(a), SignedDecimal(b), SignedDecimal(c), SignedDecimal(e)];
    AssignedNumbers(a, b, c, e, before, overflow);
  }

  lemma ScanUnsignedOf(n: nat, before: nat, overflow: string -> int)
    requires n < TWO32
    ensures ScanUnsigned(SignedDecimal(n), before, overflow) == n
  {
    ScanSigned(n);
  }

  /** The six characters that sscanf skips. */
  predicate Blank(w: string) {
    forall i | 0 <= i < |w| :: w[i] in {' ', '\t', '\n', '\r', 0xB as char, 0xC as char}
  }

  lemma {:induction false} SkipsSpaces(w: string, s: string)
    requires Blank(w) && (s == "" || !IsSpace(s[0]))
    ensures SkipSpace(w + s) == s
  {
    if w == "" {
      assert w + s == s;
    } else {
      assert (w + s)[1..] == w[1..] + s;
      SkipsSpaces(w[1..], s);
    }
  }

  lemma {:induction false} ScanStops(digits: string, tail: string, acc: nat)
    requires (forall i | 0 <= i < |digits| :: IsDigit(digits[i])) && (tail == "" || !IsDigit(tail[0]))
    ensures ScanDigits(digits + tail, acc) == ScanDigits(digits, acc)
    decreases |digits|
  {
    if digits == "" {
      assert digits + tail == tail;
    } else {
      assert (digits + tail)[1..] == digits[1..] + tail;
      ScanStops(digits[1..], tail, 10 * acc + DigitValue(digits[0]));
    }
  }

  /** Space in front, a sign, digits, and whatever follows them: the digits count, with the sign. */
  lemma ScanReads(w: string, sign: string, n: nat, tail: string)
    requires Blank(w) && sign in {"", "+", "-"} && (tail == "" || !IsDigit(tail[0]))
    ensures Scan(w + (sign + (Decimal(n) + tail))) == Some(if sign == "-" then 0 - n else n)
  {
    var digits := Decimal(n) + tail;
    var t := sign + digits;
    assert digits[0] == Decimal(n)[0];
    assert sign != "" ==> t[0] == sign[0] && t[1..] == digits;
    assert sign == "" ==> t == digits;
    SkipsSpaces(w, t);
    ScanStops(Decimal(n), tail, 0);
    ScanDecimal(n);
  }

  /** No number is read where no digit follows the space and the sign, and the variable keeps its value. */
  lemma ScanFails(w: string, sign: string, tail: string, long: int, unsigned: nat, overflow: string -> int)
    requires Blank(w) && sign in {"", "+", "-"}
    requires tail == "" || (!IsDigit(tail[0]) && (sign == "" ==> !IsSpace(tail[0]) && tail[0] != '-' && tail[0] != '+'))
    ensures Scan(w + (sign + tail)) == None
    ensures ScanLong(w + (sign + tail), long, overflow) == long
    ensures ScanUnsigned(w + (sign + tail), unsigned, overflow) == unsigned
  {
    var t := sign + tail;
    assert sign != "" ==> t[0] == sign[0] && t[1..] == tail;
    assert sign == "" ==> t == tail;
    SkipsSpaces(w, t);
  }

  /** %u takes a negative number modulo 2^32. */
  lemma NegativeWraps(n: nat, before: nat, overflow: string -> int)
    requires 0 < n < TWO32
    ensures ScanUnsigned(SignedDecimal(0 - n), before, overflow) == 0x1_0000_0000 - n
  {
    ScanSigned(0 - n);
  }

  // ---------------------------------------------------------------------
  // When it fails
  // ---------------------------------------------------------------------

  /** The number of fields in a text. */
  function FieldCount(text: string, delim: set<char>): nat
    decreases |text|
  {
    var f := NextField(text, delim);
    if f.NoField? then 0 else 1 + FieldCount(f.rest, delim)
  }

  predicate EndsInDelimiter(text: string, delim: set<char>) {
    text != "" && text[|text| - 1] in delim
  }

  lemma LastCharOfField(text: string, delim: set<char>)
    ensures var f := NextField(text, delim);
            f.Field? ==> |f.rest| < |text| && text != "" &&
                         (f.rest != "" ==> text[|text| - 1] == f.rest[|f.rest| - 1]) &&
                         (f.rest == "" ==> (f.delimited <==> EndsInDelimiter(text, delim))) &&
                         (f.rest != "" ==> f.delimited)
  {
    var s := Skip(text, delim);
    if s != "" {
      var k := WordLength(s, delim);
      assert text[|text| - 1] == s[|s| - 1];
      if k == |s| {
        LastCharOfWord(s, delim);
      }
    }
  }

  lemma {:induction false} LastCharOfWord(s: string, delim: set<char>)
    requires s != "" && WordLength(s, delim) == |s|
    ensures s[|s| - 1] !in delim
  {
    if |s| > 1 {
      LastCharOfWord(s[1..], delim);
    }
  }

  lemma {:induction false} NoFieldIsAllDelimiters(text: string, delim: set<char>)
    requires text != "" && NextField(text, delim).NoField?
    ensures EndsInDelimiter(text, delim)
  {
    assert Leading(text, delim) == |text|;
    if |text| > 1 {
      assert Leading(text[1..], delim) == |text[1..]|;
      NoFieldIsAllDelimiters(text[1..], delim);
    }
  }

  /** Whether the last of k fields is delimited can be told from the end of the text. */
  lemma LastFieldDelimited(text: string, delim: set<char>)
    requires FieldCount(text, delim) == 1
    ensures NextField(text, delim).delimited <==> EndsInDelimiter(text, delim)
  {
    LastCharOfField(text, delim);
    var f := NextField(text, delim);
    if f.rest != "" {
      NoFieldIsAllDelimiters(f.rest, delim);
    }
  }

  lemma StepOverField(text: string, delim: set<char>, f: Field)
    requires f == NextField(text, delim) && FieldCount(text, delim) >= 2
    ensures f.Field? && f.rest != "" && f.delimited && FieldCount(f.rest, delim) == FieldCount(text, delim) - 1
    ensures EndsInDelimiter(f.rest, delim) <==> EndsInDelimiter(text, delim)
  {
    LastCharOfField(text, delim);
  }

  /** The field after k others. */
  function NthField(text: string, delim: set<char>, k: nat): Field
    decreases k
  {
    var f := NextField(text, delim);
    if k == 0 || f.NoField? then f else NthField(f.rest, delim, k - 1)
  }

  lemma FieldCountStep(text: string, delim: set<char>, f: Field)
    requires f == NextField(text, delim)
    ensures FieldCount(text, delim) == if f.NoField? then 0 else 1 + FieldCount(f.rest, delim)
  {
  }

  lemma NthFieldStep(text: string, delim: set<char>, k: nat, f: Field)
    requires f == NextField(text, delim)
    ensures NthField(text, delim, k) == if k == 0 || f.NoField? then f else NthField(f.rest, delim, k - 1)
  {
  }

  lemma AnyField(text: string, delim: set<char>) returns (f: Field)
    ensures f == NextField(text, delim)
  {
    f := NextField(text, delim);
  }

  lemma {:induction false} NthFieldExists(text: string, delim: set<char>, k: nat)
    ensures NthField(text, delim, k).Field? <==> FieldCount(text, delim) > k
    decreases k
  {
    var f := AnyField(text, delim);
    FieldCountStep(text, delim, f);
    NthFieldStep(text, delim, k, f);
    if k > 0 && f.Field? {
      NthFieldExists(f.rest, delim, k - 1);
    }
  }

  lemma FirstFieldDelimited(text: string, delim: set<char>)
    requires NextField(text, delim).Field?
    ensures NextField(text, delim).delimited <==> FieldCount(text, delim) > 1 || EndsInDelimiter(text, delim)
  {
    if FieldCount(text, delim) == 1 {
      LastFieldDelimited(text, delim);
    } else {
      StepOverField(text, delim, NextField(text, delim));
    }
  }

  lemma {:induction false} NthFieldDelimited(text: string, delim: set<char>, k: nat)
    requires NthField(text, delim, k).Field? && FieldCount(text, delim) > k
    ensures NthField(text, delim, k).delimited <==> FieldCount(text, delim) > k + 1 || EndsInDelimiter(text, delim)
    decreases k
  {
    if k == 0 {
      FirstFieldDelimited(text, delim);
    } else {
      var f := NthFieldBehind(text, delim, k);
      NthFieldDelimited(f.rest, delim, k - 1);
    }
  }

  lemma NthFieldBehind(text: string, delim: set<char>, k: nat) returns (f: Field)
    requires NthField(text, delim, k).Field? && FieldCount(text, delim) > k > 0
    ensures f.Field? && NthField(text, delim, k) == NthField(f.rest, delim, k - 1)
    ensures FieldCount(f.rest, delim) == FieldCount(text, delim) - 1
    ensures EndsInDelimiter(f.rest, delim) <==> EndsInDelimiter(text, delim)
  {
    f := NextField(text, delim);
    NthFieldStep(text, delim, k, f);
    StepOverField(text, delim, f);
  }

  lemma CutFourIsFourth(text: string, delim: set<char>)
    ensures CutFour(text, delim).last == NthField(text, delim, 3)
  {
    var f1 := NextField(text, delim);
    if f1.Field? {
      var f2 := NextField(f1.rest, delim);
      assert NthField(text, delim, 3) == NthField(f1.rest, delim, 2);
      if f2.Field? {
        assert NthField(f1.rest, delim, 2) == NthField(f2.rest, delim, 1);
      }
    }
  }

  /**
   Fewer than four fields are reported. With exactly four, the content lies behind the end of the
   value unless the value ends in a delimiter; every other value is parsed.
   */
  lemma ParseFailsIff(value: string, delim: set<char>, cap: nat, before: Mcinfo, overflow: string -> int)
    requires cap > 0
    ensures var text := Clip(value, cap);
            var r := ParseValue(value, delim, cap, before, overflow);
            && (r.FormatError? <==> FieldCount(text, delim) < 4)
            && (r.Overrun? <==> FieldCount(text, delim) == 4 && !EndsInDelimiter(text, delim))
  {
    var text := Clip(value, cap);
    CutFourIsFourth(text, delim);
    NthFieldExists(text, delim, 3);
    if FieldCount(text, delim) >= 4 {
      NthFieldDelimited(text, delim, 3);
    }
  }

  lemma LastNumber(n: int, delim: set<char>)
    requires DelimiterSet(delim)
    ensures NextField(SignedDecimal(n), delim) == Field(SignedDecimal(n), "", false)
  {
    var f := SignedDecimal(n);
    assert forall i | 0 <= i < |f| :: f[i] !in delim;
    WordLengthOf(f, f, delim);
    assert f[..|f|] == f && f[0..] == f;
  }

  /** Four numbers and nothing behind them: all are assigned, and the content is sought behind the value. */
  lemma FourNumbersOverrun(a: int, b: int, c: nat, e: nat, d: char, delim: set<char>, cap: nat,
                           before: Mcinfo, overflow: string -> int)
    requires DelimiterSet(delim) && d in delim
    requires -TWO63 <= a < TWO63 && -TWO63 <= b < TWO63 && c < TWO32 && e < TWO32
    requires |FourNumbers(a, b, c, e, d)| < cap
    ensures ParseValue(FourNumbers(a, b, c, e, d), delim, cap, before, overflow) ==
            Overrun(Mcinfo(a, b, c, e, before.content))
  {
    LastNumber(e, delim);
    CutFourNumbers(a, b, c, d, d, d, SignedDecimal(e), delim, Field(SignedDecimal(e), "", false));
    InterpretNumbers(a, b, c, e, Field(SignedDecimal(e), "", false), before, overflow);
  }

  function FourNumbers(a: int, b: int, c: int, e: int, d: char): string {
    SignedDecimal(a) + [d] + (SignedDecimal(b) + [d] + (SignedDecimal(c) + [d] + SignedDecimal(e)))
  }

  lemma OverrunExample(before: Mcinfo, overflow: string -> int)
    ensures ParseValue("1|2|3|4", {'|'}, 100, before, overflow) == Overrun(Mcinfo(1, 2, 3, 4, before.content))
  {
    assert Decimal(1) == "1" && Decimal(2) == "2" && Decimal(3) == "3" && Decimal(4) == "4";
    assert FourNumbers(1, 2, 3, 4, '|') == "1|2|3|4";
    FourNumbersOverrun(1, 2, 3, 4, '|', {'|'}, 100, before, overflow);
  }

  /** Numbers with a delimiter behind each. */
  function Numbers(ns: seq<int>, d: char): string {
    if ns == [] then "" else SignedDecimal(ns[0]) + [d] + Numbers(ns[1..], d)
  }

  function WordsOf(ns: seq<int>): seq<string> {
    seq(|ns|, i requires 0 <= i < |ns| => SignedDecimal(ns[i]))
  }

  lemma NothingLeft(delim: set<char>)
    ensures NextField("", delim) == NoField
  {
  }

  lemma CutOneNumber(ns: seq<int>, d: char, delim: set<char>)
    requires DelimiterSet(delim) && d in delim && |ns| == 0
    ensures CutOne(Numbers(ns, d), delim) == Cuts([], NoField) && WordsOf(ns) == []
  {
    NothingLeft(delim);
  }

  lemma WordsOfFirst(ns: seq<int>)
    requires ns != []
    ensures WordsOf(ns) == [SignedDecimal(ns[0])] + WordsOf(ns[1..])
  {
  }

  lemma CutFewTwo(ns: seq<int>, d: char, delim: set<char>)
    requires DelimiterSet(delim) && d in delim && |ns| < 2
    ensures CutTwo(Numbers(ns, d), delim) == Cuts(WordsOf(ns), NoField)
  {
    NothingLeft(delim);
    if ns != [] {
      NumberAhead(ns[0], d, Numbers(ns[1..], d), delim);
      CutOneNumber(ns[1..], d, delim);
      WordsOfFirst(ns);
    }
  }

  lemma CutFewThree(ns: seq<int>, d: char, delim: set<char>)
    requires DelimiterSet(delim) && d in delim && |ns| < 3
    ensures CutThree(Numbers(ns, d), delim) == Cuts(WordsOf(ns), NoField)
  {
    NothingLeft(delim);
    if ns != [] {
      CutFewTwo(ns[1..], d, delim);
      CutThreeAhead(ns[0], d, Numbers(ns[1..], d), delim, Cuts(WordsOf(ns[1..]), NoField));
      WordsOfFirst(ns);
    }
  }

  lemma CutFewFour(ns: seq<int>, d: char, delim: set<char>)
    requires DelimiterSet(delim) && d in delim && |ns| < 4
    ensures CutFour(Numbers(ns, d), delim) == Cuts(WordsOf(ns), NoField)
  {
    NothingLeft(delim);
    if ns != [] {
      CutFewThree(ns[1..], d, delim);
      CutFourAhead(ns[0], d, Numbers(ns[1..], d), delim, Cuts(WordsOf(ns[1..]), NoField));
      WordsOfFirst(ns);
    }
  }

  /** With fewer than four numbers those that are there are assigned, and the other out-parameters keep their values. */
  lemma FewNumbersAssigned(ns: seq<int>, d: char, delim: set<char>, cap: nat, before: Mcinfo, overflow: string -> int)
    requires DelimiterSet(delim) && d in delim && |ns| < 4 && |Numbers(ns, d)| < cap
    requires forall i | 0 <= i < |ns| && i < 2 :: -TWO63 <= ns[i] < TWO63
    requires |ns| == 3 ==> 0 <= ns[2] < TWO32
    ensures ParseValue(Numbers(ns, d), delim, cap, before, overflow) ==
            FormatError(Mcinfo(if |ns| > 0 then ns[0] else before.createTime,
                               if |ns| > 1 then ns[1] else before.expireTime,
                               if |ns| > 2 then ns[2] else before.qps, before.delay, before.content))
  {
    CutFewFour(ns, d, delim);
    AssignedFew(ns, before, overflow);
  }

  lemma AssignedFew(ns: seq<int>, before: Mcinfo, overflow: string -> int)
    requires |ns| < 4 && forall i | 0 <= i < |ns| && i < 2 :: -TWO63 <= ns[i] < TWO63
    requires |ns| == 3 ==> 0 <= ns[2] < TWO32
    ensures Assigned(WordsOf(ns), before, overflow) ==
            Mcinfo(if |ns| > 0 then ns[0] else before.createTime, if |ns| > 1 then ns[1] else before.expireTime,
                   if |ns| > 2 then ns[2] else before.qps, before.delay, before.content)
  {
    if |ns| > 0 { ScanSigned(ns[0]); }
    if |ns| > 1 { ScanSigned(ns[1]); }
    if |ns| > 2 { ScanUnsignedOf(ns[2], before.qps, overflow); }
  }
}
