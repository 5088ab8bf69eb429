// The character filter applied to a `calculate` expression before it is
// handed to the arithmetic evaluator: every character that is not a digit,
// one of + - * / ( ) . or whitespace is deleted.
module Sanitizer {

  import opened Lexical

  /** The characters the filter keeps. */
  predicate IsKept(c: char)
  {
    IsDigit(c) || c == '+' || c == '-' || c == '*' || c == '/'
    || c == '(' || c == ')' || c == '.' || IsWhitespace(c)
  }

  predicate AllKept(s: string)
  {
    forall i :: 0 <= i < |s| ==> IsKept(s[i])
  }

  /** `t` can be obtained from `s` by deleting characters. */
  ghost predicate IsSubsequence(t: string, s: string)
    decreases |s|
  {
    if |t| == 0 then true
    else if |s| == 0 then false
    else (t[0] == s[0] && IsSubsequence(t[1..], s[1..])) || IsSubsequence(t, s[1..])
  }

  /** Deletes every character that is not kept, left to right. */
  function Sanitize(s: string): (r: string)
    ensures AllKept(r)
    ensures IsSubsequence(r, s)
  {
    if |s| == 0 then []
    else
      assert s == [s[0]] + s[1..];
      if IsKept(s[0]) then [s[0]] + Sanitize(s[1..]) else Sanitize(s[1..])
  }

  /** Every kept character occurs in the output exactly as often as in the
      input, and no other character occurs in it at all. */
  lemma {:induction false} SanitizeCounts(s: string)
    ensures forall c :: IsKept(c) ==> multiset(Sanitize(s))[c] == multiset(s)[c]
    ensures forall c :: !IsKept(c) ==> multiset(Sanitize(s))[c] == 0
  {
    if |s| > 0 {
      SanitizeCounts(s[1..]);
      assert s == [s[0]] + s[1..];
    }
  }

  /** A text made of kept characters only passes through unchanged. */
  lemma {:induction false} SanitizeKeepsKeptText(s: string)
    requires AllKept(s)
    ensures Sanitize(s) == s
  {
    if |s| > 0 {
      SanitizeKeepsKeptText(s[1..]);
    }
  }

  /** Filtering twice is filtering once. */
  lemma SanitizeIdempotent(s: string)
    ensures Sanitize(Sanitize(s)) == Sanitize(s)
  {
  }

  /** The filter works character by character, so it distributes over concatenation. */
  lemma {:induction false} SanitizeAppend(a: string, b: string)
    ensures Sanitize(a + b) == Sanitize(a) + Sanitize(b)
  {
    if |a| > 0 {
      var ab := a + b;
      assert ab[0] == a[0];
      assert ab[1..] == a[1..] + b;
      SanitizeAppend(a[1..], b);
      if IsKept(a[0]) {
        calc {
          Sanitize(ab);
          [a[0]] + Sanitize(a[1..] + b);
          [a[0]] + (Sanitize(a[1..]) + Sanitize(b));
          ([a[0]] + Sanitize(a[1..])) + Sanitize(b);
        }
      }
    } else {
      assert a + b == b;
    }
  }

  /** Every subsequence of `s` made of kept characters is a subsequence of
      `Sanitize(s)`: the filter's output is the greatest such subsequence. */
  lemma {:induction false} KeptSubsequenceIsInSanitized(t: string, s: string)
    requires IsSubsequence(t, s) && AllKept(t)
    ensures IsSubsequence(t, Sanitize(s))
    decreases |s|
  {
    if |t| > 0 {
      var s' := s[1..];
      if t[0] == s[0] && IsSubsequence(t[1..], s') {
        assert IsKept(t[0]);
        KeptSubsequenceIsInSanitized(t[1..], s');
        var r := Sanitize(s);
        assert r == [s[0]] + Sanitize(s');
        assert r[1..] == Sanitize(s');
      } else {
        KeptSubsequenceIsInSanitized(t, s');
        if IsKept(s[0]) {
          var r := Sanitize(s);
          assert r[1..] == Sanitize(s');
        }
      }
    }
  }

  lemma {:induction false} SubsequenceLength(t: string, s: string)
    requires IsSubsequence(t, s)
    ensures |t| <= |s|
    decreases |s|
  {
    if |t| > 0 {
      if t[0] == s[0] && IsSubsequence(t[1..], s[1..]) {
        SubsequenceLength(t[1..], s[1..]);
      } else {
        SubsequenceLength(t, s[1..]);
      }
    }
  }

  lemma {:induction false} SubsequenceOfSameLength(t: string, s: string)
    requires IsSubsequence(t, s) && |t| == |s|
    ensures t == s
    decreases |s|
  {
    if |t| > 0 {
      if t[0] == s[0] && IsSubsequence(t[1..], s[1..]) {
        SubsequenceOfSameLength(t[1..], s[1..]);
        assert t == [t[0]] + t[1..];
        assert s == [s[0]] + s[1..];
      } else {
        SubsequenceLength(t, s[1..]);
      }
    }
  }

  /** Independent characterisation: the filter's output is the one and only
      longest subsequence of the input that consists of kept characters. */
  lemma SanitizeIsLongestKeptSubsequence(t: string, s: string)
    requires IsSubsequence(t, s) && AllKept(t)
    ensures |t| <= |Sanitize(s)|
    ensures |t| == |Sanitize(s)| ==> t == Sanitize(s)
  {
    KeptSubsequenceIsInSanitized(t, s);
    SubsequenceLength(t, Sanitize(s));
    if |t| == |Sanitize(s)| {
      SubsequenceOfSameLength(t, Sanitize(s));
    }
  }
}
