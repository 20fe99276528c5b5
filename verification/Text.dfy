/** Strings as the repository's rewriting code sees them: where a pattern
    matches, leftmost non-overlapping replacement, and decimal numerals.
    Characters are compared after `fold`; `Exactly` gives plain equality and
    any other folding gives a case-insensitive comparison. */
module Text {

  function Exactly(c: char): char { c }

  predicate MatchesAt(fold: char -> char, pat: string, s: string, i: nat) {
    i + |pat| <= |s| && forall k :: 0 <= k < |pat| ==> fold(s[i + k]) == fold(pat[k])
  }

  predicate Occurs(fold: char -> char, pat: string, s: string) {
    exists i: nat :: i <= |s| && MatchesAt(fold, pat, s, i)
  }

  /** What `str.replace` and `re.sub` of an escaped pattern compute. An empty
      pattern matches between all characters and at both ends. */
  function ReplaceAll(fold: char -> char, s: string, pat: string, rep: string): string {
    if pat == "" then
      if s == "" then rep else rep + [s[0]] + ReplaceAll(fold, s[1..], pat, rep)
    else if s == "" then
      ""
    else if MatchesAt(fold, pat, s, 0) then
      rep + ReplaceAll(fold, s[|pat|..], pat, rep)
    else
      [s[0]] + ReplaceAll(fold, s[1..], pat, rep)
  }

  predicate BracketFree(s: string) {
    forall i :: 0 <= i < |s| ==> s[i] != '[' && s[i] != ']'
  }

  predicate IsBreak(c: char) { c == '\n' || c == '\r' }

  predicate OneLine(s: string) {
    forall i :: 0 <= i < |s| ==> !IsBreak(s[i])
  }

  lemma {:induction false} Assoc(a: string, b: string, c: string)
    ensures a + b + c == a + (b + c)
  {}

  lemma {:induction false} MatchShift(fold: char -> char, pat: string, a: string, b: string, i: nat)
    requires |a| <= i
    ensures MatchesAt(fold, pat, a + b, i) <==> MatchesAt(fold, pat, b, i - |a|)
  {
    var s := a + b;
    if MatchesAt(fold, pat, s, i) {
      forall k | 0 <= k < |pat| ensures fold(b[i - |a| + k]) == fold(pat[k]) {
        assert s[i + k] == b[i - |a| + k];
      }
    }
    if MatchesAt(fold, pat, b, i - |a|) {
      forall k | 0 <= k < |pat| ensures fold(s[i + k]) == fold(pat[k]) {
        assert s[i + k] == b[i - |a| + k];
      }
    }
  }

  /** A match at the start, one character at a time. */
  lemma {:induction false} MatchHead(fold: char -> char, pat: string, s: string)
    requires pat != ""
    ensures MatchesAt(fold, pat, s, 0) <==>
            s != "" && fold(s[0]) == fold(pat[0]) && MatchesAt(fold, pat[1..], s[1..], 0)
  {
    if MatchesAt(fold, pat, s, 0) {
      assert fold(s[0 + 0]) == fold(pat[0]);
      forall k | 0 <= k < |pat[1..]| ensures fold(s[1..][0 + k]) == fold(pat[1..][k]) {
        assert fold(s[0 + (k + 1)]) == fold(pat[k + 1]);
      }
    }
    if s != "" && fold(s[0]) == fold(pat[0]) && MatchesAt(fold, pat[1..], s[1..], 0) {
      forall k | 0 <= k < |pat| ensures fold(s[0 + k]) == fold(pat[k]) {
        if k > 0 {
          assert fold(s[1..][0 + (k - 1)]) == fold(pat[1..][k - 1]);
        }
      }
    }
  }

  lemma {:induction false} MatchChar(fold: char -> char, pat: string, s: string, i: nat, k: nat)
    requires MatchesAt(fold, pat, s, i) && k < |pat|
    ensures fold(s[i + k]) == fold(pat[k])
  {}

  lemma {:induction false} AbsentWithout(fold: char -> char, pat: string, k: nat, s: string)
    requires k < |pat| && forall i :: 0 <= i < |s| ==> fold(s[i]) != fold(pat[k])
    ensures !Occurs(fold, pat, s)
  {
    forall i: nat | i <= |s| ensures !MatchesAt(fold, pat, s, i) {
      if MatchesAt(fold, pat, s, i) {
        MatchChar(fold, pat, s, i, k);
      }
    }
  }

  /** An occurrence is at the start or later on. */
  lemma {:induction false} OccursStep(fold: char -> char, pat: string, s: string)
    requires s != ""
    ensures Occurs(fold, pat, s) <==> MatchesAt(fold, pat, s, 0) || Occurs(fold, pat, s[1..])
  {
    assert s == s[..1] + s[1..];
    if Occurs(fold, pat, s) {
      var i: nat :| i <= |s| && MatchesAt(fold, pat, s, i);
      if i > 0 {
        MatchShift(fold, pat, s[..1], s[1..], i);
      }
    }
    if Occurs(fold, pat, s[1..]) {
      var i: nat :| i <= |s[1..]| && MatchesAt(fold, pat, s[1..], i);
      MatchShift(fold, pat, s[..1], s[1..], i + 1);
    }
  }

  lemma {:induction false} OccursIn(fold: char -> char, pat: string, a: string, m: string, b: string)
    requires Occurs(fold, pat, m)
    ensures Occurs(fold, pat, a + m + b)
  {
    var i: nat :| i <= |m| && MatchesAt(fold, pat, m, i);
    assert (a + m + b) == a + (m + b);
    MatchShift(fold, pat, a, m + b, i + |a|);
    assert MatchesAt(fold, pat, m + b, i);
  }

  /** Replacing something that is not there changes nothing. */
  lemma {:induction false} ReplaceAbsent(fold: char -> char, s: string, pat: string, rep: string)
    requires pat != "" && !Occurs(fold, pat, s)
    ensures ReplaceAll(fold, s, pat, rep) == s
  {
    if s != "" {
      OccursStep(fold, pat, s);
      ReplaceAbsent(fold, s[1..], pat, rep);
    }
  }

  /** Replacing a leading match. */
  lemma {:induction false} ReplaceHit(fold: char -> char, m: string, rest: string, pat: string, rep: string)
    requires pat != "" && |m| == |pat| && MatchesAt(fold, pat, m + rest, 0)
    ensures ReplaceAll(fold, m + rest, pat, rep) == rep + ReplaceAll(fold, rest, pat, rep)
  {
    assert (m + rest)[|pat|..] == rest;
  }

  predicate NoMatchBefore(fold: char -> char, pat: string, s: string, n: nat) {
    forall t: nat :: t < n ==> !MatchesAt(fold, pat, s, t)
  }

  /** What is before the first match is copied. */
  lemma {:induction false} CopyUntil(fold: char -> char, pat: string, s: string, rep: string, n: nat)
    requires pat != "" && n <= |s| && NoMatchBefore(fold, pat, s, n)
    ensures ReplaceAll(fold, s, pat, rep) == s[..n] + ReplaceAll(fold, s[n..], pat, rep)
  {
    if n == 0 {
      assert s[..0] == "" && s[0..] == s;
    } else {
      assert !MatchesAt(fold, pat, s, 0);
      assert s == s[..1] + s[1..];
      forall t: nat | t < n - 1 ensures !MatchesAt(fold, pat, s[1..], t) {
        MatchShift(fold, pat, s[..1], s[1..], t + 1);
      }
      CopyUntil(fold, pat, s[1..], rep, n - 1);
      assert s[1..][n - 1..] == s[n..] && s[..n] == [s[0]] + s[1..][..n - 1];
      Assoc([s[0]], s[1..][..n - 1], ReplaceAll(fold, s[n..], pat, rep));
    }
  }

  /** The leftmost match is replaced, and the search goes on behind it. */
  lemma {:induction false} FirstMatchReplaced(fold: char -> char, s: string, pat: string, rep: string, n: nat)
    requires pat != "" && MatchesAt(fold, pat, s, n) && NoMatchBefore(fold, pat, s, n)
    ensures ReplaceAll(fold, s, pat, rep) == s[..n] + (rep + ReplaceAll(fold, s[n + |pat|..], pat, rep))
  {
    CopyUntil(fold, pat, s, rep, n);
    assert s == s[..n] + s[n..];
    MatchShift(fold, pat, s[..n], s[n..], n);
    assert s[n..][|pat|..] == s[n + |pat|..];
  }

  /** An empty pattern matches before every character and at the end. */
  lemma {:induction false} EmptyPattern(fold: char -> char, s: string, c: char, rep: string)
    ensures ReplaceAll(fold, "", "", rep) == rep
    ensures ReplaceAll(fold, [c] + s, "", rep) == rep + [c] + ReplaceAll(fold, s, "", rep)
    ensures |ReplaceAll(fold, s, "", rep)| == |s| + (|s| + 1) * |rep|
  {
    assert ([c] + s)[1..] == s;
    if s != "" {
      EmptyPattern(fold, s[1..], c, rep);
    }
  }

  // ---- decimal numerals

  function Digit(d: nat): char
    requires d < 10
  {
    ('0' as int + d) as char
  }

  function DigitValue(c: char): nat {
    if IsDigit(c) then c as int - '0' as int else 0
  }

  predicate IsDigit(c: char) { '0' <= c <= '9' }

  function Decimal(n: nat): string {
    if n < 10 then [Digit(n)] else Decimal(n / 10) + [Digit(n % 10)]
  }

  function Value(s: string): nat {
    if s == "" then 0 else Value(s[..|s| - 1]) * 10 + DigitValue(s[|s| - 1])
  }

  predicate AllDigits(s: string) {
    forall i :: 0 <= i < |s| ==> IsDigit(s[i])
  }

  /** A numeral is made of digits without leading zeros and reads back as the
      number printed. */
  lemma {:induction false} DecimalReadsBack(n: nat)
    ensures Decimal(n) != "" && AllDigits(Decimal(n)) && Value(Decimal(n)) == n
    ensures if n == 0 then Decimal(n) == "0" else Decimal(n)[0] != '0'
  {
    if n < 10 {
      assert Decimal(n)[..0] == "";
    } else {
      DecimalReadsBack(n / 10);
      assert Decimal(n)[..|Decimal(n)| - 1] == Decimal(n / 10);
    }
  }
}
