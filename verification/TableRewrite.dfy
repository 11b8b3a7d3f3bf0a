/**
 Table-number expansion in SQL text: LnmcsysDb::_pre_process_sql and the part of
 the four query wrappers that surrounds it.

 Two placeholders are expanded, one after the other, by the same in-place loop.
 The reference definition is Expand, which replaces both in a single pass; the
 two passes are proved equal to it, in either order.
 */
module TableRewrite {
  import opened Wrappers
  import opened CStrings
  import opened Decimals
  import opened Arith

  const BRACED := "${TABLE_NO}"
  const BARE := "$TABLE_NO"

  /** LNMCSYS_MAX_LEN_MYSQL_BUF; the last byte of the buffer holds the terminator. */
  const SQL_BUF_LEN: nat := 3 * 1024 * 1024

  // ---------------------------------------------------------------------
  // The replacing loop
  // ---------------------------------------------------------------------

  /** p stands at no position of s in the range [lo, hi). */
  ghost predicate Unmatched(s: string, p: string, lo: nat, hi: nat)
    requires hi <= |s|
  {
    forall i | lo <= i < hi :: !(p <= s[i..])
  }

  ghost predicate FirstMatch(s: string, p: string, from: nat, r: Option<nat>) {
    match r
    case None => Unmatched(s, p, from, |s|)
    case Some(pos) => from <= pos <= |s| && p <= s[pos..] && Unmatched(s, p, from, pos)
  }

  /** std::string::find: the least occurrence of p at or after from. */
  function Find(s: string, p: string, from: nat): (r: Option<nat>)
    requires p != ""
    ensures FirstMatch(s, p, from, r)
    decreases |s| - from
  {
    if from >= |s| then None
    else if p <= s[from..] then Some(from)
    else Find(s, p, from + 1)
  }

  /** Left-to-right replacement of every occurrence of p by r. */
  function Subst(s: string, p: string, r: string): string
    requires p != ""
  {
    if s == "" then ""
    else if p <= s then r + Subst(s[|p|..], p, r)
    else [s[0]] + Subst(s[1..], p, r)
  }

  /** How many replacements that makes. */
  function Hits(s: string, p: string): nat
    requires p != ""
  {
    if s == "" then 0
    else if p <= s then 1 + Hits(s[|p|..], p)
    else Hits(s[1..], p)
  }

  /** _pre_process_sql: replaces inside sql and resumes the search behind the inserted digits. */
  method PreProcessSql(sql: string, pattern: string, tableNo: nat) returns (out: string, count: nat)
    requires pattern != ""
    ensures out == Subst(sql, pattern, Decimal(tableNo))
    ensures count == Hits(sql, pattern)
  {
    count := 0;
    out := sql;
    var tbNo := Decimal(tableNo);
    var nsize := |tbNo|;
    var pos := Find(out, pattern, 0);
    ghost var from: nat := 0;
    while pos.Some?
      invariant Scanned(out, from, count, sql, pattern, tbNo)
      invariant FirstMatch(out, pattern, from, pos)
      decreases |out| - from
    {
      ReplaceOnce(out, from, count, sql, pattern, tbNo, pos.value);
      out := Replace(out, pos.value, pattern, tbNo);
      count := count + 1;
      from := pos.value + nsize;
      pos := Find(out, pattern, pos.value + nsize);
    }
    ScanComplete(out, from, count, sql, pattern, tbNo);
  }

  /** The text before from is final, and what is left to do is a substitution in the rest. */
  ghost predicate Scanned(out: string, from: nat, count: nat, sql: string, p: string, r: string)
    requires p != ""
  {
    && from <= |out|
    && out[..from] + Subst(out[from..], p, r) == Subst(sql, p, r)
    && count + Hits(out[from..], p) == Hits(sql, p)
  }

  lemma ScanComplete(out: string, from: nat, count: nat, sql: string, p: string, r: string)
    requires p != "" && Scanned(out, from, count, sql, p, r) && Unmatched(out, p, from, |out|)
    ensures out == Subst(sql, p, r) && count == Hits(sql, p)
  {
    UnmatchedTail(out, p, r, from, |out|);
    assert out == out[..from] + out[from..];
  }

  /** sql.replace(pos, |p|, r) */
  function Replace(s: string, pos: nat, p: string, r: string): string
    requires pos <= |s| && p <= s[pos..]
  {
    s[..pos] + r + s[pos + |p|..]
  }

  lemma ReplaceSlices(s: string, pos: nat, p: string, r: string, from: nat)
    requires from <= pos <= |s| && p <= s[pos..]
    ensures var s' := Replace(s, pos, p, r);
            && s'[pos + |r|..] == s[pos..][|p|..]
            && s'[..pos + |r|] == s[..from] + (s[from..pos] + r)
  {
  }

  /** One turn of the loop moves the scanned part of the text behind the inserted digits. */
  lemma ReplaceOnce(s: string, from: nat, count: nat, sql: string, p: string, r: string, pos: nat)
    requires p != "" && from <= pos <= |s| && p <= s[pos..]
    requires Scanned(s, from, count, sql, p, r) && Unmatched(s, p, from, pos)
    ensures Scanned(Replace(s, pos, p, r), pos + |r|, count + 1, sql, p, r)
    ensures |Replace(s, pos, p, r)| - (pos + |r|) < |s| - from
  {
    ReplaceSlices(s, pos, p, r, from);
    UnmatchedTail(s, p, r, from, pos);
    Regroup(s[..from], s[from..pos], r, Subst(s[pos..][|p|..], p, r));
  }

  lemma Regroup(a: string, b: string, c: string, d: string)
    ensures a + (b + c) + d == a + (b + (c + d))
  {
  }

  /** Unmatched text is copied through. */
  lemma {:induction false} UnmatchedTail(s: string, p: string, r: string, lo: nat, hi: nat)
    requires p != "" && lo <= hi <= |s| && Unmatched(s, p, lo, hi)
    ensures Subst(s[lo..], p, r) == s[lo..hi] + Subst(s[hi..], p, r)
    ensures Hits(s[lo..], p) == Hits(s[hi..], p)
    decreases hi - lo
  {
    if lo < hi {
      UnmatchedTail(s, p, r, lo + 1, hi);
      assert s[lo..][1..] == s[lo + 1..];
      assert s[lo..hi] == [s[lo]] + s[lo + 1..hi];
    }
  }

  // ---------------------------------------------------------------------
  // Placeholders
  // ---------------------------------------------------------------------

  /** No character of w starts a placeholder or appears in the replacement text. */
  predicate Inert(w: string, r: string) {
    forall i | 0 <= i < |w| :: w[i] != '$' && w[i] !in r
  }

  predicate Placeholder(p: string, r: string) {
    p != "" && p[0] == '$' && Inert(p[1..], r)
  }

  /** What the digits and the two placeholders have to satisfy for the theorems below. */
  predicate Compatible(a: string, b: string, r: string) {
    && Placeholder(a, r) && Placeholder(b, r)
    && !(a <= b) && !(b <= a)
    && r != "" && '$' !in r
  }

  lemma TablePlaceholders(tableNo: nat)
    ensures Compatible(BRACED, BARE, Decimal(tableNo))
    ensures Compatible(BARE, BRACED, Decimal(tableNo))
  {
    var r := Decimal(tableNo);
    assert forall c | c in r :: IsDigit(c);
    assert BRACED[1] == '{' && BARE[1] == 'T';
    assert BRACED[1..] == "{TABLE_NO}" && BARE[1..] == "TABLE_NO";
  }

  /** Single-pass reference: at each position expand whichever placeholder stands there. */
  function Expand(s: string, a: string, b: string, r: string): string
    requires a != "" && b != ""
  {
    if s == "" then ""
    else if a <= s then r + Expand(s[|a|..], a, b, r)
    else if b <= s then r + Expand(s[|b|..], a, b, r)
    else [s[0]] + Expand(s[1..], a, b, r)
  }

  /** Every position at which p stands in s, overlapping ones included. */
  function Occurrences(s: string, p: string): nat {
    if s == "" then 0 else (if p <= s then 1 else 0) + Occurrences(s[1..], p)
  }

  ghost predicate Absent(s: string, p: string) {
    forall i | 0 <= i <= |s| :: !(p <= s[i..])
  }

  // ---------------------------------------------------------------------
  // How one replacement pass acts on prefixes
  // ---------------------------------------------------------------------

  /** Text that cannot start a placeholder is copied through. */
  lemma {:induction false} SubstPassesOver(x: string, s: string, p: string, r: string)
    requires p != "" && p[0] == '$' && '$' !in x
    ensures Subst(x + s, p, r) == x + Subst(s, p, r)
    ensures Occurrences(x + s, p) == Occurrences(s, p)
  {
    if x == "" {
      assert x + s == s;
    } else {
      assert (x + s)[0] == x[0];
      assert (x + s)[1..] == x[1..] + s;
      SubstPassesOver(x[1..], s, p, r);
      SubstPassesOne(x + s, p, r);
      assert x == [x[0]] + x[1..];
    }
  }

  lemma SubstPassesOne(s: string, p: string, r: string)
    requires p != "" && p[0] == '$' && s != "" && s[0] != '$'
    ensures Subst(s, p, r) == [s[0]] + Subst(s[1..], p, r)
    ensures Occurrences(s, p) == Occurrences(s[1..], p)
  {
  }

  /** A word of inert characters leads the output exactly when it led the input. */
  lemma {:induction false} InertPrefix(w: string, s: string, p: string, r: string)
    requires Placeholder(p, r) && r != "" && Inert(w, r)
    ensures w <= Subst(s, p, r) <==> w <= s
  {
    var t := Subst(s, p, r);
    if w == "" || s == "" {
    } else if p <= s {
      assert s[0] == '$' && t[0] == r[0] && r[0] in r;
    } else {
      InertPrefix(w[1..], s[1..], p, r);
      assert t == [s[0]] + t[1..];
      ConsPrefix(w, s);
      ConsPrefix(w, t);
    }
  }

  lemma ConsPrefix(w: string, s: string)
    requires w != "" && s != ""
    ensures w <= s <==> w[0] == s[0] && w[1..] <= s[1..]
  {
    if w[0] == s[0] && w[1..] <= s[1..] {
      assert w == [w[0]] + w[1..] && s == [s[0]] + s[1..];
    }
  }

  lemma PrefixesComparable(p: string, q: string, s: string)
    ensures p <= s && q <= s ==> p <= q || q <= p
  {
    if p <= s && q <= s {
      assert p == s[..|p|] && q == s[..|q|];
      assert if |p| <= |q| then p <= q else q <= p;
    }
  }

  /** The replaced placeholder never leads the output; the other one leads it exactly when it led the input. */
  lemma PlaceholderPrefix(s: string, p: string, q: string, r: string)
    requires Placeholder(p, r) && Placeholder(q, r) && r != "" && '$' !in r
    requires p == q || (!(p <= q) && !(q <= p))
    ensures q <= Subst(s, p, r) <==> p != q && q <= s
  {
    var t := Subst(s, p, r);
    if s == "" {
    } else if p <= s {
      assert t[0] == r[0] && r[0] in r;
      PrefixesComparable(p, q, s);
    } else {
      assert t == [s[0]] + t[1..];
      InertPrefix(q[1..], s[1..], p, r);
      ConsPrefix(q, s);
      ConsPrefix(q, t);
    }
  }

  /** A placeholder standing in the text survives the pass that replaces the other one. */
  lemma SubstPassesPlaceholder(s: string, p: string, q: string, r: string)
    requires Compatible(p, q, r) && q <= s
    ensures Subst(s, p, r) == q + Subst(s[|q|..], p, r)
    ensures Occurrences(s, p) == Occurrences(s[|q|..], p)
  {
    PrefixesComparable(p, q, s);
    var tail := q[1..];
    assert s[1..] == tail + s[|q|..];
    SubstPassesOver(tail, s[|q|..], p, r);
    assert q == [s[0]] + tail;
  }

  lemma SubstPassesSelf(s: string, p: string, r: string)
    requires Placeholder(p, r) && p <= s
    ensures Occurrences(s, p) == 1 + Occurrences(s[|p|..], p)
  {
    var tail := p[1..];
    assert s[1..] == tail + s[|p|..];
    SubstPassesOver(tail, s[|p|..], p, r);
  }

  // ---------------------------------------------------------------------
  // Main results
  // ---------------------------------------------------------------------

  /** Two passes equal one simultaneous substitution. */
  lemma {:induction false} TwoPasses(s: string, a: string, b: string, r: string)
    requires Compatible(a, b, r)
    ensures Subst(Subst(s, a, r), b, r) == Expand(s, a, b, r)
  {
    if s == "" {
    } else if a <= s {
      TwoPasses(s[|a|..], a, b, r);
      SubstPassesOver(r, Subst(s[|a|..], a, r), b, r);
    } else if b <= s {
      var rest := Subst(s[|b|..], a, r);
      TwoPasses(s[|b|..], a, b, r);
      SubstPassesPlaceholder(s, a, b, r);
      assert b <= b + rest && (b + rest)[|b|..] == rest;
    } else {
      TwoPasses(s[1..], a, b, r);
      PlaceholderPrefix(s, a, b, r);
      var t := Subst(s, a, r);
      assert t[0] == s[0] && t[1..] == Subst(s[1..], a, r);
    }
  }

  /** The single pass does not depend on which placeholder is tried first. */
  lemma {:induction false} ExpandSymmetric(s: string, a: string, b: string, r: string)
    requires Compatible(a, b, r)
    ensures Expand(s, a, b, r) == Expand(s, b, a, r)
  {
    if s == "" {
    } else if a <= s {
      PrefixesComparable(a, b, s);
      ExpandSymmetric(s[|a|..], a, b, r);
    } else if b <= s {
      ExpandSymmetric(s[|b|..], a, b, r);
    } else {
      ExpandSymmetric(s[1..], a, b, r);
    }
  }

  /** The order of the two passes does not matter. */
  lemma PassesCommute(s: string, a: string, b: string, r: string)
    requires Compatible(a, b, r)
    ensures Subst(Subst(s, a, r), b, r) == Subst(Subst(s, b, r), a, r)
  {
    TwoPasses(s, a, b, r);
    TwoPasses(s, b, a, r);
    ExpandSymmetric(s, a, b, r);
  }

  /** After a pass its placeholder stands nowhere: the digits never complete one. */
  lemma {:induction false} SubstRemoves(s: string, p: string, r: string)
    requires Placeholder(p, r) && r != "" && '$' !in r
    ensures Absent(Subst(s, p, r), p)
  {
    var t := Subst(s, p, r);
    if s == "" {
      assert t[0..] == "";
    } else {
      PlaceholderPrefix(s, p, p, r);
      if p <= s {
        var u := Subst(s[|p|..], p, r);
        SubstRemoves(s[|p|..], p, r);
        forall i | 0 <= i <= |t| ensures !(p <= t[i..]) {
          if i < |r| {
            assert t[i] == r[i] && r[i] in r;
          } else {
            assert t[i..] == u[i - |r|..];
          }
        }
      } else {
        var u := Subst(s[1..], p, r);
        SubstRemoves(s[1..], p, r);
        forall i | 0 <= i <= |t| ensures !(p <= t[i..]) {
          if i == 0 {
            assert t[0..] == t;
          } else {
            assert t[i..] == u[i - 1..];
          }
        }
      }
    }
  }

  /** Neither placeholder is left anywhere in the output. */
  lemma BothRemoved(s: string, a: string, b: string, r: string)
    requires Compatible(a, b, r)
    ensures Absent(Expand(s, a, b, r), a) && Absent(Expand(s, a, b, r), b)
  {
    TwoPasses(s, a, b, r);
    PassesCommute(s, a, b, r);
    SubstRemoves(Subst(s, a, r), b, r);
    SubstRemoves(Subst(s, b, r), a, r);
  }

  /** Text without placeholders is left alone. */
  lemma {:induction false} NothingToExpand(s: string, a: string, b: string, r: string)
    requires a != "" && b != "" && Absent(s, a) && Absent(s, b)
    ensures Expand(s, a, b, r) == s
  {
    if s != "" {
      assert s[0..] == s;
      assert forall i | 0 <= i <= |s[1..]| :: s[1..][i..] == s[i + 1..];
      NothingToExpand(s[1..], a, b, r);
    }
  }

  /** The first pass counts the true occurrences of its placeholder. */
  lemma {:induction false} HitsAreOccurrences(s: string, p: string, r: string)
    requires Placeholder(p, r)
    ensures Hits(s, p) == Occurrences(s, p)
  {
    if s == "" {
    } else if p <= s {
      HitsAreOccurrences(s[|p|..], p, r);
      SubstPassesSelf(s, p, r);
    } else {
      HitsAreOccurrences(s[1..], p, r);
    }
  }

  /** The first pass neither creates nor destroys occurrences of the other placeholder. */
  lemma {:induction false} OtherOccurrencesKept(s: string, a: string, b: string, r: string)
    requires Compatible(a, b, r)
    ensures Occurrences(Subst(s, a, r), b) == Occurrences(s, b)
  {
    if s == "" {
    } else if a <= s {
      OtherOccurrencesKept(s[|a|..], a, b, r);
      SubstPassesOver(r, Subst(s[|a|..], a, r), b, r);
      SubstPassesPlaceholder(s, b, a, r);
    } else {
      OtherOccurrencesKept(s[1..], a, b, r);
      PlaceholderPrefix(s, a, b, r);
      var t := Subst(s, a, r);
      assert t[1..] == Subst(s[1..], a, r);
    }
  }

  /** k steps of x each; k * x without multiplication. */
  function Times(k: nat, x: int): int {
    if k == 0 then 0 else x + Times(k - 1, x)
  }

  lemma TimesIsProduct(k: nat, x: int)
    ensures Times(k, x) == k * x
  {
  }

  function Predicted(s: string, a: string, b: string, r: string): int {
    |s| + Times(Occurrences(s, a), |r| - |a|) + Times(Occurrences(s, b), |r| - |b|)
  }

  lemma PredictedAtPlaceholder(s: string, a: string, b: string, r: string)
    requires Compatible(a, b, r) && a <= s
    ensures Predicted(s, a, b, r) == |r| + Predicted(s[|a|..], a, b, r)
  {
    SubstPassesSelf(s, a, r);
    SubstPassesPlaceholder(s, b, a, r);
  }

  lemma PredictedElsewhere(s: string, a: string, b: string, r: string)
    requires s != "" && !(a <= s) && !(b <= s)
    ensures Predicted(s, a, b, r) == 1 + Predicted(s[1..], a, b, r)
  {
  }

  lemma {:induction false} ExpandLengthSteps(s: string, a: string, b: string, r: string)
    requires Compatible(a, b, r)
    ensures |Expand(s, a, b, r)| == Predicted(s, a, b, r)
  {
    if s == "" {
    } else if a <= s {
      ExpandLengthSteps(s[|a|..], a, b, r);
      PredictedAtPlaceholder(s, a, b, r);
    } else if b <= s {
      ExpandLengthSteps(s[|b|..], a, b, r);
      PredictedAtPlaceholder(s, b, a, r);
    } else {
      ExpandLengthSteps(s[1..], a, b, r);
      PredictedElsewhere(s, a, b, r);
    }
  }

  /** The length of the result, from the length of the text and the two counts. */
  lemma ExpandLength(s: string, a: string, b: string, r: string)
    requires Compatible(a, b, r)
    ensures |Expand(s, a, b, r)| ==
            |s| + Occurrences(s, a) * (|r| - |a|) + Occurrences(s, b) * (|r| - |b|)
  {
    ExpandLengthSteps(s, a, b, r);
    TimesIsProduct(Occurrences(s, a), |r| - |a|);
    TimesIsProduct(Occurrences(s, b), |r| - |b|);
  }

  // ---------------------------------------------------------------------
  // The query wrappers: print into the buffer, expand, copy back
  // ---------------------------------------------------------------------

  function Expanded(s: string, tableNo: nat): string {
    Expand(s, BRACED, BARE, Decimal(tableNo))
  }

  /** The statement text that reaches the server for caller text sql. */
  function Prepared(sql: string, tableNo: nat): string {
    Clip(Expanded(Clip(sql, SQL_BUF_LEN), tableNo), SQL_BUF_LEN)
  }

  method PrepareSql(sql: string, tableNo: nat) returns (buf: string, braced: nat, bare: nat)
    ensures buf == Prepared(sql, tableNo)
    ensures braced == Occurrences(Clip(sql, SQL_BUF_LEN), BRACED)
    ensures bare == Occurrences(Clip(sql, SQL_BUF_LEN), BARE)
  {
    buf := Clip(sql, SQL_BUF_LEN);
    ghost var text, r := buf, Decimal(tableNo);
    TablePlaceholders(tableNo);
    buf, braced := PreProcessSql(buf, BRACED, tableNo);
    buf, bare := PreProcessSql(buf, BARE, tableNo);
    TwoPasses(text, BRACED, BARE, r);
    HitsAreOccurrences(text, BRACED, r);
    HitsAreOccurrences(Subst(text, BRACED, r), BARE, r);
    OtherOccurrencesKept(text, BRACED, BARE, r);
    buf := Clip(buf, SQL_BUF_LEN);
  }

  // ---------------------------------------------------------------------
  // Which digits are inserted, and where
  // ---------------------------------------------------------------------

  /** A statement as callers write it: text without a dollar sign, and the two placeholders. */
  datatype Piece = Plain(text: string) | Braced | Bare

  predicate WellFormed(pieces: seq<Piece>) {
    forall i | 0 <= i < |pieces| :: pieces[i].Plain? ==> '$' !in pieces[i].text
  }

  /** The statement that the caller passes. */
  function WrittenAs(pieces: seq<Piece>): string {
    if pieces == [] then ""
    else (match pieces[0] case Plain(text) => text case Braced => "${TABLE_NO}" case Bare => "$TABLE_NO")
         + WrittenAs(pieces[1..])
  }

  /** The same with the number in every place. */
  function FilledIn(pieces: seq<Piece>, tableNo: nat): string {
    if pieces == [] then ""
    else (if pieces[0].Plain? then pieces[0].text else Decimal(tableNo)) + FilledIn(pieces[1..], tableNo)
  }

  lemma {:induction false} ExpandPassesOver(x: string, s: string, a: string, b: string, r: string)
    requires Compatible(a, b, r) && '$' !in x
    ensures Expand(x + s, a, b, r) == x + Expand(s, a, b, r)
  {
    if x == "" {
      assert x + s == s;
    } else {
      assert (x + s)[0] == x[0] && (x + s)[1..] == x[1..] + s;
      ExpandPassesOver(x[1..], s, a, b, r);
      assert x == [x[0]] + x[1..];
    }
  }

  lemma ExpandAtPlaceholder(p: string, s: string, a: string, b: string, r: string)
    requires Compatible(a, b, r) && (p == a || p == b)
    ensures Expand(p + s, a, b, r) == r + Expand(s, a, b, r)
  {
    assert (p + s)[|p|..] == s;
    if p == b {
      NotBoth(p + s, a, b);
    }
  }

  lemma NotBoth(s: string, a: string, b: string)
    requires b <= s && !(a <= b) && !(b <= a)
    ensures !(a <= s)
  {
  }

  /** Every placeholder becomes the table number in decimal, and everything else stays. */
  lemma {:induction false} ExpandedIsFilledIn(pieces: seq<Piece>, tableNo: nat)
    requires WellFormed(pieces)
    ensures Expanded(WrittenAs(pieces), tableNo) == FilledIn(pieces, tableNo)
  {
    if pieces != [] {
      TablePlaceholders(tableNo);
      var rest := WrittenAs(pieces[1..]);
      ExpandedIsFilledIn(pieces[1..], tableNo);
      match pieces[0]
      case Plain(text) => ExpandPassesOver(text, rest, BRACED, BARE, Decimal(tableNo));
      case Braced => ExpandAtPlaceholder("${TABLE_NO}", rest, BRACED, BARE, Decimal(tableNo));
      case Bare => ExpandAtPlaceholder("$TABLE_NO", rest, BRACED, BARE, Decimal(tableNo));
    }
  }

  /** What the server gets for a statement that fits the 3 MB buffer, before and after. */
  lemma PreparedIsFilledIn(pieces: seq<Piece>, tableNo: nat)
    requires WellFormed(pieces)
    requires |WrittenAs(pieces)| < 3 * 1024 * 1024 && |FilledIn(pieces, tableNo)| < 3 * 1024 * 1024
    ensures Prepared(WrittenAs(pieces), tableNo) == FilledIn(pieces, tableNo)
  {
    ExpandedIsFilledIn(pieces, tableNo);
  }

  /** A longer result is cut to the buffer. */
  lemma PreparedIsCut(pieces: seq<Piece>, tableNo: nat)
    requires WellFormed(pieces)
    requires |WrittenAs(pieces)| < 3 * 1024 * 1024 <= |FilledIn(pieces, tableNo)|
    ensures Prepared(WrittenAs(pieces), tableNo) == FilledIn(pieces, tableNo)[..3 * 1024 * 1024 - 1]
  {
    ExpandedIsFilledIn(pieces, tableNo);
  }

  /** One placeholder of either kind, in any text. */
  lemma OnePlaceholder(a: string, b: string, tableNo: nat)
    requires '$' !in a && '$' !in b && tableNo < 1_000_000_000 && |a| + 11 + |b| < 3 * 1024 * 1024
    ensures Prepared(a + ("$TABLE_NO" + b), tableNo) == a + (Decimal(tableNo) + b)
    ensures Prepared(a + ("${TABLE_NO}" + b), tableNo) == a + (Decimal(tableNo) + b)
  {
    assert Pow10(9) == 1_000_000_000 by { PowNine(); }
    DecimalLength(tableNo, 9);
    ThreePieces(a, Bare, b, tableNo);
    ThreePieces(a, Braced, b, tableNo);
    PreparedIsFilledIn([Plain(a), Bare, Plain(b)], tableNo);
    PreparedIsFilledIn([Plain(a), Braced, Plain(b)], tableNo);
  }

  lemma ThreePieces(a: string, p: Piece, b: string, tableNo: nat)
    requires !p.Plain?
    ensures WrittenAs([Plain(a), p, Plain(b)]) == a + ((if p.Braced? then "${TABLE_NO}" else "$TABLE_NO") + b)
    ensures FilledIn([Plain(a), p, Plain(b)], tableNo) == a + (Decimal(tableNo) + b)
  {
    var two, one := [p, Plain(b)], [Plain(b)];
    assert [Plain(a), p, Plain(b)][1..] == two && two[1..] == one && one[1..] == [];
    assert WrittenAs(one) == b + "" == b && FilledIn(one, tableNo) == b + "" == b;
  }

  lemma TableFour()
    ensures Prepared("select * from t_$TABLE_NO", 4) == "select * from t_4"
  {
    OnePlaceholder("select * from t_", "", 4);
    assert Decimal(4) == "4";
    assert "select * from t_" + ("$TABLE_NO" + "") == "select * from t_$TABLE_NO";
    assert "select * from t_" + ("4" + "") == "select * from t_4";
  }

  /** No placeholder ever reaches the server, even when the copy back is cut short. */
  lemma PreparedHasNoPlaceholder(sql: string, tableNo: nat)
    ensures Absent(Prepared(sql, tableNo), BRACED)
    ensures Absent(Prepared(sql, tableNo), BARE)
  {
    var r := Decimal(tableNo);
    TablePlaceholders(tableNo);
    var full := Expanded(Clip(sql, SQL_BUF_LEN), tableNo);
    BothRemoved(Clip(sql, SQL_BUF_LEN), BRACED, BARE, r);
    AbsentInPrefix(full, BRACED, |Clip(full, SQL_BUF_LEN)|);
    AbsentInPrefix(full, BARE, |Clip(full, SQL_BUF_LEN)|);
    assert full[..|full|] == full;
  }

  lemma AbsentInPrefix(s: string, p: string, k: nat)
    requires k <= |s| && Absent(s, p)
    ensures Absent(s[..k], p)
  {
    forall i | 0 <= i <= k ensures !(p <= s[..k][i..]) {
      CutPrefix(s, p, k, i);
    }
  }

  lemma CutPrefix(s: string, p: string, k: nat, i: nat)
    requires i <= k <= |s|
    ensures p <= s[..k][i..] ==> p <= s[i..]
  {
    assert s[..k][i..] == s[i..k];
    assert s[i..k] <= s[i..];
  }

  /** Preparing a prepared statement changes nothing, whatever the table number. */
  lemma PrepareIdempotent(sql: string, tableNo: nat, again: nat)
    ensures Prepared(Prepared(sql, tableNo), again) == Prepared(sql, tableNo)
  {
    var p := Prepared(sql, tableNo);
    PreparedHasNoPlaceholder(sql, tableNo);
    assert Clip(p, SQL_BUF_LEN) == p;
    NothingToExpand(p, BRACED, BARE, Decimal(again));
  }

  /** The copy back loses nothing exactly when the expanded length, known from the counts, fits. */
  lemma CopyBackLossless(sql: string, tableNo: nat)
    ensures var s, d := Clip(sql, SQL_BUF_LEN), |Decimal(tableNo)|;
            Prepared(sql, tableNo) == Expanded(s, tableNo) <==>
            |s| + Occurrences(s, BRACED) * (d - 11) + Occurrences(s, BARE) * (d - 9) < SQL_BUF_LEN
  {
    TablePlaceholders(tableNo);
    ExpandLength(Clip(sql, SQL_BUF_LEN), BRACED, BARE, Decimal(tableNo));
  }

  /** With at most 10^9 tables a statement never grows, so nothing is ever lost. */
  lemma NeverGrowsBelowBillionTables(sql: string, tableNo: nat)
    requires tableNo < 1_000_000_000
    ensures Prepared(sql, tableNo) == Expanded(Clip(sql, SQL_BUF_LEN), tableNo)
    ensures |Prepared(sql, tableNo)| <= |sql|
  {
    var s, d := Clip(sql, SQL_BUF_LEN), |Decimal(tableNo)|;
    assert Pow10(9) == 1_000_000_000 by { PowNine(); }
    DecimalLength(tableNo, 9);
    TablePlaceholders(tableNo);
    ExpandLength(s, BRACED, BARE, Decimal(tableNo));
    NonPositive(Occurrences(s, BRACED), d - 11);
    NonPositive(Occurrences(s, BARE), d - 9);
  }

  /** Any 64-bit table number fits the 21-byte digit buffer with its terminator. */
  lemma DigitsFitBuffer(tableNo: nat)
    requires tableNo < TWO64
    ensures |Decimal(tableNo)| < 21
  {
    PowNine();
    assert Pow10(12) == 1_000_000_000_000;
    assert Pow10(16) == 10_000_000_000_000_000;
    assert Pow10(20) == 100_000_000_000_000_000_000;
    DecimalLength(tableNo, 20);
  }

  lemma NonPositive(k: nat, x: int)
    requires x <= 0
    ensures k * x <= 0
  {
  }

  lemma PowNine()
    ensures Pow10(9) == 1_000_000_000
  {
    assert Pow10(3) == 1_000;
    assert Pow10(6) == 1_000_000;
  }
}
