/** Redaction of any texts whatever: exactly which single texts are removed from
    every input, and lists of which all are. */
module MaskEdges {
  import opened Text
  import opened ContentFilter

  function Redacted(fold: char -> char, s: string, v: string): string {
    ReplaceAll(fold, s, v, MASK)
  }

  /** From `j` on `v` goes like a mask, and before a mask that stands for `pat`
      its first `j` characters are left alone. */
  predicate ReachesMask(fold: char -> char, v: string, pat: string, j: nat) {
    j < |v| && Agree(fold, v[j..], MASK) && NoMatchBefore(fold, pat, v[..j] + pat, j)
  }

  /** A mask put for `pat` can hold `v` or complete it. */
  ghost predicate Completable(fold: char -> char, v: string, pat: string) {
    || Occurs(fold, v, MASK)
    || (exists i: nat :: BeginsInMask(fold, v, i))
    || (exists j: nat :: ReachesMask(fold, v, pat, j))
  }

  /** Not empty, not in the mask, and no redaction of it completes it again. */
  ghost predicate Removable(fold: char -> char, v: string) {
    v != "" && !Completable(fold, v, v)
  }

  ghost predicate AlwaysRemoved(fold: char -> char, v: string) {
    forall s: string :: !Occurs(fold, v, Redacted(fold, s, v))
  }

  lemma {:induction false} TooShortToRedact(fold: char -> char, v: string, s: string)
    requires |s| < |v|
    ensures Redacted(fold, s, v) == s
  {
    ReplaceAbsent(fold, s, v, MASK);
  }

  lemma {:induction false} Itself(fold: char -> char, v: string, rest: string)
    ensures MatchesAt(fold, v, v + rest, 0)
  {}

  // ---- the texts that are not always removed

  lemma {:induction false} BeginningComesBack(fold: char -> char, v: string, i: nat)
    requires BeginsInMask(fold, v, i)
    ensures !AlwaysRemoved(fold, v)
  {
    var rest := v[|MASK| - i..];
    var r := Redacted(fold, v + rest, v);
    Itself(fold, v, rest);
    ReplaceHit(fold, v, rest, v, MASK);
    TooShortToRedact(fold, v, rest);
    assert r == MASK + rest;
    forall k | 0 <= k < |v| ensures fold(r[i + k]) == fold(v[k]) {
      if k < |MASK| - i {
        assert r[i + k] == MASK[i..][k];
      }
    }
    assert MatchesAt(fold, v, r, i);
  }

  lemma {:induction false} EndComesBack(fold: char -> char, v: string, j: nat)
    requires ReachesMask(fold, v, v, j)
    ensures !AlwaysRemoved(fold, v)
  {
    var lead, rest := v[..j], if |v| - j > |MASK| then v[j + |MASK|..] else "";
    var s := lead + (v + rest);
    LeadIsLeft(fold, v, j, rest);
    Itself(fold, v, rest);
    ReplaceHit(fold, v, rest, v, MASK);
    assert v != "";
    if rest == "" {
      assert Redacted(fold, rest, v) == rest;
    } else {
      TooShortOrWhole(fold, v, j, rest);
    }
    var r := lead + (MASK + rest);
    assert Redacted(fold, s, v) == r;
    forall k | 0 <= k < |v| ensures fold(r[0 + k]) == fold(v[k]) {
      if j <= k < j + |MASK| {
        assert r[k] == MASK[k - j] && v[j..][k - j] == v[k];
      }
    }
    assert MatchesAt(fold, v, r, 0);
  }

  lemma {:induction false} TooShortOrWhole(fold: char -> char, v: string, j: nat, rest: string)
    requires j < |v| && |v| - j > |MASK| && rest == v[j + |MASK|..]
    ensures Redacted(fold, rest, v) == rest
  {
    TooShortToRedact(fold, v, rest);
  }

  lemma {:induction false} LeadIsLeft(fold: char -> char, v: string, j: nat, rest: string)
    requires ReachesMask(fold, v, v, j)
    ensures Redacted(fold, v[..j] + (v + rest), v) == v[..j] + Redacted(fold, v + rest, v)
  {
    var lead := v[..j];
    var s := lead + (v + rest);
    Assoc(lead, v, rest);
    forall t: nat | t < j ensures !MatchesAt(fold, v, s, t) {
      if MatchesAt(fold, v, s, t) {
        forall k | 0 <= k < |v| ensures fold((lead + v)[t + k]) == fold(v[k]) {
          MatchChar(fold, v, s, t, k);
          assert s[t + k] == (lead + v)[t + k];
        }
        assert MatchesAt(fold, v, lead + v, t);
      }
    }
    CopyUntil(fold, v, s, MASK, j);
    assert s[..j] == lead && s[j..] == v + rest;
  }

  lemma {:induction false} NotRemovableRemains(fold: char -> char, v: string)
    requires !Removable(fold, v)
    ensures !AlwaysRemoved(fold, v)
  {
    if v == "" {
      assert MatchesAt(fold, v, Redacted(fold, "", v), 0);
    } else if Occurs(fold, v, MASK) {
      Itself(fold, v, "");
      ReplaceHit(fold, v, "", v, MASK);
      assert v + "" == v && MASK + "" == MASK;
      assert Redacted(fold, v, v) == MASK;
    } else if i: nat :| BeginsInMask(fold, v, i) {
      BeginningComesBack(fold, v, i);
    } else {
      var j: nat :| ReachesMask(fold, v, v, j);
      EndComesBack(fold, v, j);
    }
  }

  // ---- the others are

  /** How many characters are copied before the first match, or the end. */
  function Lead(fold: char -> char, v: string, s: string): (n: nat)
    ensures n <= |s| && NoMatchBefore(fold, v, s, n)
    ensures n < |s| ==> MatchesAt(fold, v, s, n)
  {
    if s == "" || MatchesAt(fold, v, s, 0) then 0
    else
      var n := Lead(fold, v, s[1..]);
      assert s == s[..1] + s[1..];
      assert forall t: nat :: 0 < t <= |s| ==> (MatchesAt(fold, v, s, t) <==> MatchesAt(fold, v, s[1..], t - 1)) by {
        forall t: nat | 0 < t <= |s|
          ensures MatchesAt(fold, v, s, t) <==> MatchesAt(fold, v, s[1..], t - 1)
        {
          MatchShift(fold, v, s[..1], s[1..], t);
        }
      }
      1 + n
  }

  /** A match that begins before anything is replaced reaches into a mask. */
  lemma {:induction false} FrontReachesMask(fold: char -> char, v: string, pat: string, s: string)
    requires v != "" && pat != "" && MatchesAt(fold, v, Redacted(fold, s, pat), 0)
    ensures MatchesAt(fold, v, s, 0) || ReachesMask(fold, v, pat, Lead(fold, pat, s))
  {
    var n, r := Lead(fold, pat, s), Redacted(fold, s, pat);
    CopyUntil(fold, pat, s, MASK, n);
    if |v| <= n {
      SameFront(fold, v, r, s, n);
    } else if n < |s| {
      LeadThenMask(fold, v, pat, s, n);
    }
  }

  lemma {:induction false} SameFront(fold: char -> char, v: string, r: string, s: string, n: nat)
    requires |v| <= n <= |r| && n <= |s| && r[..n] == s[..n] && MatchesAt(fold, v, r, 0)
    ensures MatchesAt(fold, v, s, 0)
  {
    forall k | 0 <= k < |v| ensures fold(s[0 + k]) == fold(v[k]) {
      MatchChar(fold, v, r, 0, k);
      assert r[..n][k] == s[..n][k];
    }
  }

  lemma {:induction false} LeadThenMask(fold: char -> char, v: string, pat: string, s: string, n: nat)
    requires pat != "" && n < |v| && n < |s| && MatchesAt(fold, pat, s, n) && NoMatchBefore(fold, pat, s, n)
    requires Redacted(fold, s, pat) == s[..n] + Redacted(fold, s[n..], pat)
    requires MatchesAt(fold, v, Redacted(fold, s, pat), 0)
    ensures ReachesMask(fold, v, pat, n)
  {
    var r := Redacted(fold, s, pat);
    assert s == s[..n] + s[n..];
    MatchShift(fold, pat, s[..n], s[n..], n);
    var after := Redacted(fold, s[n..][|pat|..], pat);
    assert r == s[..n] + (MASK + after);
    forall k | 0 <= k < |v[n..]| && k < |MASK| ensures fold(v[n..][k]) == fold(MASK[k]) {
      MatchChar(fold, v, r, 0, n + k);
      assert r[0 + (n + k)] == MASK[k];
    }
    forall t: nat | t < n ensures !MatchesAt(fold, pat, v[..n] + pat, t) {
      if MatchesAt(fold, pat, v[..n] + pat, t) {
        forall k | 0 <= k < |pat| ensures fold(s[t + k]) == fold(pat[k]) {
          MatchChar(fold, pat, v[..n] + pat, t, k);
        }
        assert MatchesAt(fold, pat, s, t);
      }
    }
  }

  lemma {:induction false} NotAfterMask(fold: char -> char, v: string, pat: string, rest: string)
    requires v != "" && !Completable(fold, v, pat) && !Occurs(fold, v, rest)
    ensures !Occurs(fold, v, MASK + rest)
  {
    assert Agree(fold, v[0..], MASK) ==> ReachesMask(fold, v, pat, 0);
    if Occurs(fold, v, MASK + rest) {
      OccursAfterMask(fold, v, rest);
    }
  }

  /** Redacting `pat` leaves no `v` that its masks cannot complete: neither if it
      is the redacted text itself nor if it was absent. */
  lemma {:induction false} NotCompleted(fold: char -> char, v: string, pat: string, s: string)
    requires v != "" && pat != "" && !Completable(fold, v, pat) && (v == pat || !Occurs(fold, v, s))
    ensures !Occurs(fold, v, Redacted(fold, s, pat))
    decreases |s|
  {
    var r := Redacted(fold, s, pat);
    if s == "" {
      assert r == "";
    } else if MatchesAt(fold, pat, s, 0) {
      assert s == s[..|pat|] + s[|pat|..] + "";
      if Occurs(fold, v, s[|pat|..]) {
        OccursIn(fold, v, s[..|pat|], s[|pat|..], "");
      }
      NotCompleted(fold, v, pat, s[|pat|..]);
      NotAfterMask(fold, v, pat, Redacted(fold, s[|pat|..], pat));
    } else {
      OccursStep(fold, v, s);
      NotCompleted(fold, v, pat, s[1..]);
      assert r[1..] == Redacted(fold, s[1..], pat);
      OccursStep(fold, v, r);
      if MatchesAt(fold, v, r, 0) {
        FrontReachesMask(fold, v, pat, s);
      }
    }
  }

  /** Redacting a text removes it from every input exactly when it is not empty,
      no part of the mask, does not begin in the end of a mask, and does not end
      in the beginning of one where its own redaction puts a mask. */
  lemma {:induction false} AlwaysRemovedIff(fold: char -> char, v: string)
    ensures AlwaysRemoved(fold, v) <==> Removable(fold, v)
  {
    if Removable(fold, v) {
      forall s: string ensures !Occurs(fold, v, Redacted(fold, s, v)) {
        NotCompleted(fold, v, v, s);
      }
    } else {
      NotRemovableRemains(fold, v);
    }
  }

  // ---- lists

  /** A text that holds `v` is not found where `v` has been removed; any other
      one puts masks. */
  ghost predicate Spares(fold: char -> char, v: string, later: string) {
    Occurs(fold, v, later) || !Completable(fold, v, later)
  }

  /** Every text is removed by its own redaction, and spared by the later ones. */
  ghost predicate Compatible(fold: char -> char, vs: seq<Violation>) {
    && (forall i :: 0 <= i < |vs| ==> Removable(fold, vs[i].Target()))
    && (forall i, j :: 0 <= i < j < |vs| ==> Spares(fold, vs[i].Target(), vs[j].Target()))
  }

  lemma {:induction false} StaysAway(fold: char -> char, v: string, later: string, s: string)
    requires v != "" && later != "" && Spares(fold, v, later) && !Occurs(fold, v, s)
    ensures !Occurs(fold, v, Redacted(fold, s, later))
  {
    if Occurs(fold, v, later) {
      if Occurs(fold, later, s) {
        OccursThrough(fold, v, later, s);
      }
      ReplaceAbsent(fold, s, later, MASK);
    } else {
      NotCompleted(fold, v, later, s);
    }
  }

  /** After the last redaction, the earlier texts are still away. */
  lemma {:induction false} LastRedaction(fold: char -> char, vs: seq<Violation>, i: nat, s: string)
    requires i < |vs| && Compatible(fold, vs)
    requires i < |vs| - 1 ==> !Occurs(fold, vs[i].Target(), s)
    ensures !Occurs(fold, vs[i].Target(), Redacted(fold, s, vs[|vs| - 1].Target()))
  {
    var last := vs[|vs| - 1].Target();
    assert Removable(fold, vs[i].Target()) && Removable(fold, last);
    if i < |vs| - 1 {
      StaysAway(fold, vs[i].Target(), last, s);
    } else {
      NotCompleted(fold, last, last, s);
    }
  }

  /** Sequential redaction of such a list removes all of its texts from every
      input, also texts with brackets. */
  lemma {:induction false} CompatibleAreRemoved(fold: char -> char, text: string, vs: seq<Violation>)
    requires Compatible(fold, vs)
    ensures Absent(fold, vs, Redactions(fold, text, vs))
  {
    if vs != [] {
      var front := vs[..|vs| - 1];
      CompatibleAreRemoved(fold, text, front);
      var r := Redactions(fold, text, front);
      forall v | v in vs ensures !Occurs(fold, v.Target(), Redactions(fold, text, vs)) {
        var i :| 0 <= i < |vs| && vs[i] == v;
        assert i < |vs| - 1 ==> front[i] in front;
        LastRedaction(fold, vs, i, r);
      }
    }
  }

  /** Lists of texts that are clear of the mask are of this kind. */
  lemma {:induction false} ClearAreCompatible(fold: char -> char, vs: seq<Violation>)
    requires forall v :: v in vs ==>
               v.Target() != "" && ClearOfMask(fold, v.Target()) && !Occurs(fold, v.Target(), MASK)
    ensures Compatible(fold, vs)
  {
    forall i, pat | 0 <= i < |vs| ensures !Completable(fold, vs[i].Target(), pat) {
      assert vs[i] in vs;
    }
  }
}
