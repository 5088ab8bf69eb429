// The percentage recogniser of the `calculate` tool: the regular expression
//   (\d+(?:\.\d+)?)%\s*(?:of|on)\s*(\d+(?:\.\d+)?)   with the `i` flag
// rewritten as a left-to-right scanner. `OccursAt` states declaratively what
// an occurrence of the pattern is; `Recognize` is the scanner, and the lemmas
// at the end show that it finds the leftmost occurrence with the longest
// second numeral, which is what a backtracking regular-expression match
// returns for this pattern.
module PercentPattern {

  import opened Wrappers
  import opened Lexical

  /* ---------- Declarative description of an occurrence ---------- */

  predicate DigitsIn(s: string, lo: nat, hi: nat)
    requires lo <= hi <= |s|
  {
    forall k :: lo <= k < hi ==> IsDigit(s[k])
  }

  predicate WhitespaceIn(s: string, lo: nat, hi: nat)
    requires lo <= hi <= |s|
  {
    forall k :: lo <= k < hi ==> IsWhitespace(s[k])
  }

  /** `s[lo..hi]` is a numeral: a run of digits, optionally followed by a dot
      and a second run of digits. */
  predicate IsNumeralIn(s: string, lo: nat, hi: nat)
    requires lo <= hi <= |s|
  {
    || (lo < hi && DigitsIn(s, lo, hi))
    || exists k :: lo < k < hi - 1 && s[k] == '.' && DigitsIn(s, lo, k) && DigitsIn(s, k + 1, hi)
  }

  /** The keyword `of` or `on`, in any letter case. Without the `u` flag the
      case-insensitive match folds only ASCII letters onto `o`, `f` and `n`. */
  predicate IsOfOn(a: char, b: char)
  {
    (a == 'o' || a == 'O') && (b == 'f' || b == 'F' || b == 'n' || b == 'N')
  }

  /** The pattern occurs in `s` with the first numeral at `s[i..pe]`, the
      percent sign at `s[pe]`, the keyword at `s[ks..ks+2]` and the second
      numeral at `s[am..ae]`; only whitespace lies in between. */
  predicate OccursAt(s: string, i: nat, pe: nat, ks: nat, am: nat, ae: nat)
  {
    && i < pe < |s| && s[pe] == '%' && pe + 1 <= ks && ks + 2 <= am < ae <= |s|
    && IsNumeralIn(s, i, pe)
    && WhitespaceIn(s, pe + 1, ks)
    && IsOfOn(s[ks], s[ks + 1])
    && WhitespaceIn(s, ks + 2, am)
    && IsNumeralIn(s, am, ae)
  }

  ghost predicate Contains(s: string)
  {
    exists i: nat, pe: nat, ks: nat, am: nat, ae: nat :: OccursAt(s, i, pe, ks, am, ae)
  }

  /* ---------- The scanner ---------- */

  /** A successful match: the positions of its parts, as in `OccursAt`. */
  datatype Match = Match(start: nat, percentEnd: nat, keyword: nat, amountStart: nat, amountEnd: nat)

  /** The end of the maximal run of digits starting at `i`. */
  function DigitsEnd(s: string, i: nat): (j: nat)
    requires i <= |s|
    ensures i <= j <= |s| && DigitsIn(s, i, j)
    ensures j == |s| || !IsDigit(s[j])
    decreases |s| - i
  {
    if i < |s| && IsDigit(s[i]) then DigitsEnd(s, i + 1) else i
  }

  /** The end of the maximal run of whitespace starting at `i`. */
  function WhitespaceEnd(s: string, i: nat): (j: nat)
    requires i <= |s|
    ensures i <= j <= |s| && WhitespaceIn(s, i, j)
    ensures j == |s| || !IsWhitespace(s[j])
    decreases |s| - i
  {
    if i < |s| && IsWhitespace(s[i]) then WhitespaceEnd(s, i + 1) else i
  }

  /** Greedy `\d+(?:\.\d+)?` at `i`: the end of the longest numeral there. */
  function ScanNumeral(s: string, i: nat): (r: Option<nat>)
    requires i <= |s|
    ensures r.None? <==> (i == |s| || !IsDigit(s[i]))
    ensures r.Some? ==> i < r.value <= |s| && IsNumeralIn(s, i, r.value)
    ensures r.Some? ==> forall k :: i <= k < r.value ==> IsDigit(s[k]) || s[k] == '.'
  {
    var j := DigitsEnd(s, i);
    if j == i then None
    else if j + 1 < |s| && s[j] == '.' && IsDigit(s[j + 1]) then
      var e := DigitsEnd(s, j + 1);
      assert j < e - 1;
      Some(e)
    else Some(j)
  }

  /** The pattern anchored at `i`. */
  function MatchAt(s: string, i: nat): (r: Option<Match>)
    requires i <= |s|
    ensures r.Some? ==> r.value.start == i
    ensures r.Some? ==> OccursAt(s, i, r.value.percentEnd, r.value.keyword, r.value.amountStart, r.value.amountEnd)
  {
    match ScanNumeral(s, i)
    case None => None
    case Some(pe) =>
      if pe < |s| && s[pe] == '%' then
        var ks := WhitespaceEnd(s, pe + 1);
        if ks + 1 < |s| && IsOfOn(s[ks], s[ks + 1]) then
          var am := WhitespaceEnd(s, ks + 2);
          match ScanNumeral(s, am)
          case None => None
          case Some(ae) => Some(Match(i, pe, ks, am, ae))
        else None
      else None
  }

  /** The first start position at or after `i` where the pattern matches. */
  function FindFrom(s: string, i: nat): (r: Option<Match>)
    requires i <= |s|
    ensures r.Some? ==> i <= r.value.start < |s| && MatchAt(s, r.value.start) == r
    ensures forall k :: i <= k <= |s| && (r.None? || k < r.value.start) ==> MatchAt(s, k).None?
    decreases |s| - i
  {
    if i == |s| then None
    else match MatchAt(s, i)
      case Some(m) => Some(m)
      case None => FindFrom(s, i + 1)
  }

  /** `expression.match(pattern)`: the leftmost match, if any. It succeeds
      if and only if the pattern occurs in the text, and what it returns is
      an occurrence. */
  function Recognize(s: string): (r: Option<Match>)
    ensures r.Some? <==> Contains(s)
    ensures r.Some? ==> OccursAt(s, r.value.start, r.value.percentEnd, r.value.keyword,
                                 r.value.amountStart, r.value.amountEnd)
  {
    SearchSucceedsIffContains(s);
    FindFrom(s, 0)
  }

  /** The two captured numerals of a match. */
  function Percentage(s: string, m: Match): string
    requires m.start <= m.percentEnd <= |s|
  {
    s[m.start..m.percentEnd]
  }

  function Amount(s: string, m: Match): string
    requires m.amountStart <= m.amountEnd <= |s|
  {
    s[m.amountStart..m.amountEnd]
  }

  /* ---------- Correctness of the scanner ---------- */

  /** The greedy numeral scan reaches at least as far as any numeral at `i`. */
  lemma ScanNumeralIsLongest(s: string, i: nat, e: nat)
    requires i <= e <= |s| && IsNumeralIn(s, i, e)
    ensures ScanNumeral(s, i).Some? && e <= ScanNumeral(s, i).value
  {
  }

  /** A numeral followed by a character outside the numeral alphabet is
      exactly what the greedy scan returns. */
  lemma ScanNumeralStopsAt(s: string, i: nat, e: nat)
    requires i <= e < |s| && IsNumeralIn(s, i, e)
    requires !IsDigit(s[e]) && s[e] != '.'
    ensures ScanNumeral(s, i) == Some(e)
  {
  }

  /** A whitespace run followed by a non-whitespace character is exactly
      what the whitespace scan skips. */
  lemma WhitespaceEndIsExact(s: string, i: nat, e: nat)
    requires i <= e < |s| && WhitespaceIn(s, i, e) && !IsWhitespace(s[e])
    ensures WhitespaceEnd(s, i) == e
  {
  }

  /** Every occurrence anchored at `i` is found by `MatchAt`, with the same
      first numeral, percent sign and keyword, and a second numeral at least
      as long. */
  lemma MatchAtComplete(s: string, i: nat, pe: nat, ks: nat, am: nat, ae: nat)
    requires OccursAt(s, i, pe, ks, am, ae)
    ensures MatchAt(s, i).Some?
    ensures MatchAt(s, i).value.percentEnd == pe
    ensures MatchAt(s, i).value.keyword == ks
    ensures MatchAt(s, i).value.amountStart == am
    ensures ae <= MatchAt(s, i).value.amountEnd
  {
    ScanNumeralStopsAt(s, i, pe);
    WhitespaceEndIsExact(s, pe + 1, ks);
    assert IsDigit(s[am]) by {
      if !(am < ae && DigitsIn(s, am, ae)) {
        var k :| am < k < ae - 1 && s[k] == '.' && DigitsIn(s, am, k) && DigitsIn(s, k + 1, ae);
      }
    }
    WhitespaceEndIsExact(s, ks + 2, am);
    ScanNumeralIsLongest(s, am, ae);
  }

  /** What the scanner returns is an occurrence, it is the leftmost one, and
      among the occurrences at that position its second numeral is the
      longest; the other parts are then fixed. */
  lemma RecognizeSound(s: string)
    requires Recognize(s).Some?
    ensures var m := Recognize(s).value;
      OccursAt(s, m.start, m.percentEnd, m.keyword, m.amountStart, m.amountEnd)
    ensures var m := Recognize(s).value;
      forall i: nat, pe: nat, ks: nat, am: nat, ae: nat :: OccursAt(s, i, pe, ks, am, ae) ==>
        m.start <= i &&
        (i == m.start ==> pe == m.percentEnd && ks == m.keyword && am == m.amountStart && ae <= m.amountEnd)
  {
    var m := Recognize(s).value;
    forall i: nat, pe: nat, ks: nat, am: nat, ae: nat | OccursAt(s, i, pe, ks, am, ae)
      ensures m.start <= i
      ensures i == m.start ==> pe == m.percentEnd && ks == m.keyword && am == m.amountStart && ae <= m.amountEnd
    {
      MatchAtComplete(s, i, pe, ks, am, ae);
    }
  }

  /** The scanner fails only when the pattern occurs nowhere. */
  lemma RecognizeComplete(s: string, i: nat, pe: nat, ks: nat, am: nat, ae: nat)
    requires OccursAt(s, i, pe, ks, am, ae)
    ensures Recognize(s).Some?
    ensures Recognize(s).value.start <= i
  {
    MatchAtComplete(s, i, pe, ks, am, ae);
  }

  /** The search from the start of the text succeeds if and only if the
      pattern occurs somewhere in it. */
  lemma SearchSucceedsIffContains(s: string)
    ensures FindFrom(s, 0).Some? <==> Contains(s)
  {
    if FindFrom(s, 0).Some? {
      var m := FindFrom(s, 0).value;
      assert OccursAt(s, m.start, m.percentEnd, m.keyword, m.amountStart, m.amountEnd);
    } else if Contains(s) {
      var i: nat, pe: nat, ks: nat, am: nat, ae: nat :| OccursAt(s, i, pe, ks, am, ae);
      MatchAtComplete(s, i, pe, ks, am, ae);
    }
  }

  /** No percent sign, no match: the guard `expression.includes("%")` in
      front of the match never changes the outcome. */
  lemma RecognizeNeedsPercent(s: string)
    requires '%' !in s
    ensures Recognize(s).None?
  {
  }
}
