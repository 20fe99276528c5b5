/** Redaction in the content filter: each violation's text is replaced, one
    violation after another and ignoring case. `fold` is the case folding. */
module ContentFilter {
  import opened Text

  datatype Severity = Block | Redact | LogOnly
  datatype Action = Allowed | Blocked | Redacted | Logged

  /** `full` may be empty, in which case `short` stands in for it. */
  datatype Violation = Violation(severity: Severity, full: string, short: string) {
    function Target(): string { if full != "" then full else short }
  }

  const MASK := "[REDACTED]"

  function Redactions(fold: char -> char, text: string, vs: seq<Violation>): string {
    if vs == [] then text
    else ReplaceAll(fold, Redactions(fold, text, vs[..|vs| - 1]), vs[|vs| - 1].Target(), MASK)
  }

  method ApplyRedactions(fold: char -> char, text: string, vs: seq<Violation>) returns (redacted: string)
    ensures redacted == Redactions(fold, text, vs)
  {
    redacted := text;
    for i := 0 to |vs|
      invariant redacted == Redactions(fold, text, vs[..i])
    {
      redacted := ReplaceAll(fold, redacted, vs[i].Target(), MASK);
      assert vs[..i + 1][..i] == vs[..i];
    }
    assert vs[..|vs|] == vs;
  }

  function OfSeverity(vs: seq<Violation>, s: Severity): seq<Violation> {
    if vs == [] then [] else (if vs[0].severity == s then [vs[0]] else []) + OfSeverity(vs[1..], s)
  }

  function Filtered(fold: char -> char, text: string, vs: seq<Violation>): (Action, string) {
    if vs == [] then (Allowed, text)
    else if OfSeverity(vs, Block) != [] then (Blocked, text)
    else if OfSeverity(vs, Redact) != [] then (Redacted, Redactions(fold, text, OfSeverity(vs, Redact)))
    else (Logged, text)
  }

  method DetermineAction(fold: char -> char, text: string, vs: seq<Violation>)
    returns (action: Action, filtered: string)
    ensures (action, filtered) == Filtered(fold, text, vs)
  {
    if vs == [] {
      return Allowed, text;
    }
    if OfSeverity(vs, Block) != [] {
      return Blocked, text;
    }
    var redact := OfSeverity(vs, Redact);
    if redact != [] {
      var t := ApplyRedactions(fold, text, redact);
      return Redacted, t;
    }
    return Logged, text;
  }

  // ---- what redaction achieves

  /** Equal as far as both go. */
  predicate Agree(fold: char -> char, a: string, b: string) {
    forall k :: 0 <= k < |a| && k < |b| ==> fold(a[k]) == fold(b[k])
  }

  /** An end of a mask is a proper beginning of `v`. */
  predicate BeginsInMask(fold: char -> char, v: string, i: nat) {
    0 < i < |MASK| && |MASK| - i < |v| && Agree(fold, MASK[i..], v)
  }

  /** The text does not contain a mask, and can meet one neither with an end of
      its own nor with its beginning. */
  ghost predicate ClearOfMask(fold: char -> char, v: string) {
    && (forall j :: 0 <= j < |v| ==> !Agree(fold, v[j..], MASK))
    && (forall i: nat :: !BeginsInMask(fold, v, i))
  }

  ghost predicate NonEmpty(vs: seq<Violation>) {
    forall v :: v in vs ==> v.Target() != ""
  }

  /** Every text to redact is a part of the mask, or clear of it. */
  ghost predicate Plain(fold: char -> char, vs: seq<Violation>) {
    NonEmpty(vs) && forall v :: v in vs ==> (Occurs(fold, v.Target(), MASK) || ClearOfMask(fold, v.Target()))
  }

  ghost predicate Absent(fold: char -> char, vs: seq<Violation>, s: string) {
    forall v :: v in vs ==> !Occurs(fold, v.Target(), s)
  }

  /** The folding keeps each bracket apart from every other character. */
  ghost predicate KeepsBrackets(fold: char -> char) {
    forall c :: (fold(c) == fold('[') <==> c == '[') && (fold(c) == fold(']') <==> c == ']')
  }

  /** A text without brackets is clear of the mask. */
  lemma {:induction false} BracketFreeIsClear(fold: char -> char, v: string)
    requires KeepsBrackets(fold) && BracketFree(v)
    ensures ClearOfMask(fold, v)
  {
    forall j | 0 <= j < |v| ensures !Agree(fold, v[j..], MASK) {
      assert v[j..][0] == v[j] && MASK[0] == '[';
    }
    forall i: nat | 0 < i < |MASK| && |MASK| - i < |v| ensures !Agree(fold, MASK[i..], v) {
      var k := |MASK| - 1 - i;
      assert MASK[i..][k] == ']' && v[k] != ']';
    }
  }

  /** A text clear of the mask at the front of a redacted string was there before. */
  lemma {:induction false} FrontUnchanged(fold: char -> char, v: string, s: string, pat: string)
    requires (forall j :: 0 <= j < |v| ==> !Agree(fold, v[j..], MASK)) && pat != ""
    requires MatchesAt(fold, v, ReplaceAll(fold, s, pat, MASK), 0)
    ensures MatchesAt(fold, v, s, 0)
    decreases v
  {
    var r := ReplaceAll(fold, s, pat, MASK);
    if v != "" {
      MatchHead(fold, v, r);
      MatchHead(fold, v, s);
      if s != "" && MatchesAt(fold, pat, s, 0) {
        MeetsMask(fold, v, ReplaceAll(fold, s[|pat|..], pat, MASK), 0);
      } else if s != "" {
        assert r[1..] == ReplaceAll(fold, s[1..], pat, MASK);
        forall j | 0 <= j < |v[1..]| ensures !Agree(fold, v[1..][j..], MASK) {
          assert v[1..][j..] == v[j + 1..];
        }
        FrontUnchanged(fold, v[1..], s[1..], pat);
      }
    }
  }

  lemma {:induction false} MeetsMask(fold: char -> char, v: string, rest: string, i: nat)
    requires i < |MASK| && MatchesAt(fold, v, MASK + rest, i)
    ensures Agree(fold, MASK[i..], v) && (i == 0 ==> Agree(fold, v[0..], MASK))
  {
    forall k | 0 <= k < |MASK[i..]| && k < |v| ensures fold(MASK[i..][k]) == fold(v[k]) {
      MatchChar(fold, v, MASK + rest, i, k);
    }
    assert v[0..] == v && MASK[0..] == MASK;
  }

  /** An occurrence in `MASK + rest` is in the mask or in the rest, or meets the
      mask at an edge. */
  lemma {:induction false} OccursAfterMask(fold: char -> char, v: string, rest: string)
    requires v != "" && Occurs(fold, v, MASK + rest)
    ensures Occurs(fold, v, MASK) || Occurs(fold, v, rest) ||
            Agree(fold, v[0..], MASK) || exists i: nat :: BeginsInMask(fold, v, i)
  {
    var s := MASK + rest;
    var i: nat :| i <= |s| && MatchesAt(fold, v, s, i);
    if i >= |MASK| {
      MatchShift(fold, v, MASK, rest, i);
      assert MatchesAt(fold, v, rest, i - |MASK|);
    } else if i + |v| <= |MASK| {
      forall k | 0 <= k < |v| ensures fold(MASK[i + k]) == fold(v[k]) {
        MatchChar(fold, v, s, i, k);
      }
      assert MatchesAt(fold, v, MASK, i);
    } else {
      MeetsMask(fold, v, rest, i);
      assert i > 0 ==> BeginsInMask(fold, v, i);
    }
  }

  /** A redaction introduces no text of its own except what the mask holds:
      neither the redacted text nor one that was absent before. */
  lemma {:induction false} StaysAbsent(fold: char -> char, v: string, s: string, pat: string)
    requires v != "" && ClearOfMask(fold, v) && pat != "" && !Occurs(fold, v, MASK)
    requires v == pat || !Occurs(fold, v, s)
    ensures !Occurs(fold, v, ReplaceAll(fold, s, pat, MASK))
    decreases s
  {
    var r := ReplaceAll(fold, s, pat, MASK);
    if s != "" {
      if MatchesAt(fold, pat, s, 0) {
        if v != pat {
          assert s == s[..|pat|] + s[|pat|..] + "";
          if Occurs(fold, v, s[|pat|..]) {
            OccursIn(fold, v, s[..|pat|], s[|pat|..], "");
          }
        }
        StaysAbsent(fold, v, s[|pat|..], pat);
        if Occurs(fold, v, r) {
          OccursAfterMask(fold, v, ReplaceAll(fold, s[|pat|..], pat, MASK));
        }
      } else {
        OccursStep(fold, v, s);
        StaysAbsent(fold, v, s[1..], pat);
        OccursStep(fold, v, r);
        assert r[1..] == ReplaceAll(fold, s[1..], pat, MASK);
        if MatchesAt(fold, v, r, 0) {
          FrontUnchanged(fold, v, s, pat);
        }
      }
    }
  }

  /** Redacting a text that is there leaves the mask. */
  lemma {:induction false} MaskAppears(fold: char -> char, s: string, pat: string)
    requires pat != "" && Occurs(fold, pat, s)
    ensures Occurs(fold, MASK, ReplaceAll(fold, s, pat, MASK))
    decreases s
  {
    if MatchesAt(fold, pat, s, 0) {
      assert MatchesAt(fold, MASK, ReplaceAll(fold, s, pat, MASK), 0);
    } else if s != "" {
      OccursStep(fold, pat, s);
      MaskAppears(fold, s[1..], pat);
      OccursStep(fold, MASK, ReplaceAll(fold, s, pat, MASK));
    }
  }

  lemma {:induction false} Unchanged(fold: char -> char, s: string, vs: seq<Violation>)
    requires NonEmpty(vs) && Absent(fold, vs, s)
    ensures Redactions(fold, s, vs) == s
  {
    if vs != [] {
      var last := vs[|vs| - 1];
      assert forall v :: v in vs[..|vs| - 1] ==> v in vs;
      Unchanged(fold, s, vs[..|vs| - 1]);
      assert last in vs;
      ReplaceAbsent(fold, s, last.Target(), MASK);
    }
  }

  lemma {:induction false} AllRemoved(fold: char -> char, text: string, vs: seq<Violation>)
    requires Plain(fold, vs) && Absent(fold, vs, MASK)
    ensures Absent(fold, vs, Redactions(fold, text, vs))
  {
    if vs != [] {
      var front, last := vs[..|vs| - 1], vs[|vs| - 1];
      assert vs == front + [last];
      AllRemoved(fold, text, front);
      forall v | v in vs ensures !Occurs(fold, v.Target(), Redactions(fold, text, vs)) {
        assert v in front || v == last;
        StaysAbsent(fold, v.Target(), Redactions(fold, text, front), last.Target());
      }
    }
  }

  /** Once something has been redacted, a mask survives to the end. */
  lemma {:induction false} MaskSurvives(fold: char -> char, text: string, vs: seq<Violation>)
    requires NonEmpty(vs) && !Absent(fold, vs, text)
    ensures Occurs(fold, MASK, Redactions(fold, text, vs))
  {
    var front, last := vs[..|vs| - 1], vs[|vs| - 1];
    var r := Redactions(fold, text, front);
    if Occurs(fold, last.Target(), r) {
      MaskAppears(fold, r, last.Target());
    } else {
      ReplaceAbsent(fold, r, last.Target(), MASK);
      if Absent(fold, front, text) {
        Unchanged(fold, text, front);
      } else {
        MaskSurvives(fold, text, front);
      }
    }
  }

  lemma {:induction false} OccursThrough(fold: char -> char, a: string, b: string, s: string)
    requires Occurs(fold, a, b) && Occurs(fold, b, s)
    ensures Occurs(fold, a, s)
  {
    var i: nat :| i <= |b| && MatchesAt(fold, a, b, i);
    var j: nat :| j <= |s| && MatchesAt(fold, b, s, j);
    forall k | 0 <= k < |a| ensures fold(s[(i + j) + k]) == fold(a[k]) {
      assert fold(s[j + (i + k)]) == fold(b[i + k]);
    }
    assert MatchesAt(fold, a, s, i + j);
  }

  /** Sequential redaction removes every violation text exactly when none of
      them is part of the mask or there was nothing to redact. */
  lemma {:induction false} RemovesAllIff(fold: char -> char, text: string, vs: seq<Violation>)
    requires Plain(fold, vs)
    ensures Absent(fold, vs, Redactions(fold, text, vs)) <==>
            Absent(fold, vs, MASK) || Absent(fold, vs, text)
  {
    if Absent(fold, vs, MASK) {
      AllRemoved(fold, text, vs);
    } else if Absent(fold, vs, text) {
      Unchanged(fold, text, vs);
    } else {
      MaskSurvives(fold, text, vs);
      MaskHolds(fold, vs, Redactions(fold, text, vs));
    }
  }

  lemma {:induction false} MaskHolds(fold: char -> char, vs: seq<Violation>, s: string)
    requires !Absent(fold, vs, MASK) && Occurs(fold, MASK, s)
    ensures !Absent(fold, vs, s)
  {
    var v :| v in vs && Occurs(fold, v.Target(), MASK);
    OccursThrough(fold, v.Target(), MASK, s);
  }

  /** A clean result is stable: redacting it again changes nothing. */
  lemma {:induction false} RedactingAgain(fold: char -> char, text: string, vs: seq<Violation>)
    requires Plain(fold, vs)
    requires Absent(fold, vs, MASK) || Absent(fold, vs, text)
    ensures Redactions(fold, Redactions(fold, text, vs), vs) == Redactions(fold, text, vs)
  {
    RemovesAllIff(fold, text, vs);
    Unchanged(fold, Redactions(fold, text, vs), vs);
  }

  /** A text that can meet a mask defeats the guarantee: the mask of a later
      redaction completes the earlier text. */
  lemma {:induction false} MeetingAMaskDefeatsRedaction()
    ensures var vs := [Violation(Redact, "]x", ""), Violation(Redact, "ab", "")];
            Absent(Exactly, vs, MASK) && !Absent(Exactly, vs, Redactions(Exactly, "abx", vs))
  {
    var vs := [Violation(Redact, "]x", ""), Violation(Redact, "ab", "")];
    assert MatchesAt(Exactly, "ab", "abx", 0);
    assert vs[..1] == [vs[0]] && vs[..1][..0] == [];
    AbsentWithout(Exactly, "]x", 0, "abx");
    ReplaceAbsent(Exactly, "abx", "]x", MASK);
    assert Redactions(Exactly, "abx", vs[..1]) == "abx";
    assert ReplaceAll(Exactly, "abx"[2..], "ab", MASK) == "x" by {
      assert "abx"[2..] == "x" && "x"[1..] == "";
    }
    var r := Redactions(Exactly, "abx", vs);
    assert r == MASK + "x";
    assert MatchesAt(Exactly, "]x", r, 9);
    assert vs[0] in vs;
    AbsentWithout(Exactly, "]x", 1, MASK);
    AbsentWithout(Exactly, "ab", 0, MASK);
  }

  /** The text that a violation is about, its full one if it has one, is clear of
      the mask and no part of it. */
  ghost predicate FieldsClear(fold: char -> char, v: Violation) {
    if v.full != "" then ClearOfMask(fold, v.full) && !Occurs(fold, v.full, "[REDACTED]")
    else v.short != "" && ClearOfMask(fold, v.short) && !Occurs(fold, v.short, "[REDACTED]")
  }

  /** The full text, or without one the short text, is nowhere in `out`. */
  ghost predicate FieldsGone(fold: char -> char, v: Violation, out: string) {
    (v.full != "" ==> !Occurs(fold, v.full, out)) && (v.full == "" ==> !Occurs(fold, v.short, out))
  }

  ghost predicate AnyOf(vs: seq<Violation>, s: Severity) {
    exists v :: v in vs && v.severity == s
  }

  /** What the filter's verdict says about the violations and the text handed on. */
  lemma {:induction false} VerdictMeaning(fold: char -> char, text: string, vs: seq<Violation>)
    ensures var (action, out) := Filtered(fold, text, vs);
            && (action == Blocked <==> AnyOf(vs, Block))
            && (action == Redacted <==> !AnyOf(vs, Block) && AnyOf(vs, Redact))
            && (action == Allowed <==> vs == [])
            && (action != Redacted ==> out == text)
            && (action == Redacted && (forall v :: v in vs && v.severity == Redact ==> FieldsClear(fold, v)) ==>
                  forall v :: v in vs && v.severity == Redact ==> FieldsGone(fold, v, out))
  {
    var rs := OfSeverity(vs, Redact);
    OfSeverityMembers(vs, Block);
    OfSeverityMembers(vs, Redact);
    if OfSeverity(vs, Block) != [] {
      assert OfSeverity(vs, Block)[0] in OfSeverity(vs, Block);
    }
    if rs != [] {
      assert rs[0] in rs;
    }
    if forall v :: v in vs && v.severity == Redact ==> FieldsClear(fold, v) {
      RemovesAllIff(fold, text, rs);
      assert forall v :: v in rs ==> FieldsGone(fold, v, Redactions(fold, text, rs));
    }
  }

  /** A text that was there leaves the literal mask. */
  lemma {:induction false} RedactedIsMasked(fold: char -> char, text: string, vs: seq<Violation>, v: Violation)
    requires forall w :: w in vs && w.severity == Redact ==> w.full != "" || w.short != ""
    requires v in vs && v.severity == Redact && !FieldsGone(fold, v, text) && !AnyOf(vs, Block)
    ensures Occurs(fold, "[REDACTED]", Filtered(fold, text, vs).1)
  {
    OfSeverityMembers(vs, Block);
    OfSeverityMembers(vs, Redact);
    if OfSeverity(vs, Block) != [] {
      assert OfSeverity(vs, Block)[0] in OfSeverity(vs, Block);
    }
    MaskSurvives(fold, text, OfSeverity(vs, Redact));
  }

  /** Without blocking ones, the text is that of the redact violations. */
  lemma {:induction false} FilteredText(fold: char -> char, text: string, vs: seq<Violation>)
    requires !AnyOf(vs, Block)
    ensures Filtered(fold, text, vs).1 == Redactions(fold, text, OfSeverity(vs, Redact))
  {
    OfSeverityMembers(vs, Block);
    if OfSeverity(vs, Block) != [] {
      assert OfSeverity(vs, Block)[0] in OfSeverity(vs, Block);
    }
  }

  lemma {:induction false} OfSeverityAppend(vs: seq<Violation>, v: Violation, s: Severity)
    ensures OfSeverity(vs + [v], s) == if v.severity == s then OfSeverity(vs, s) + [v] else OfSeverity(vs, s)
  {
    if vs == [] {
      assert [v][1..] == [] && [] + [v] == [v];
    } else {
      OfSeverityAppend(vs[1..], v, s);
      assert (vs + [v])[1..] == vs[1..] + [v];
      assert v.severity != s ==> OfSeverity(vs + [v], s) == OfSeverity(vs, s);
    }
  }

  /** Violations take effect one after another, in the order in which they were
      detected: one to redact replaces its own text by the mask wherever it is
      left by then, and one that is only logged does nothing. */
  lemma {:induction false} NextViolation(fold: char -> char, text: string, vs: seq<Violation>, v: Violation)
    requires !AnyOf(vs + [v], Block)
    ensures Filtered(fold, text, vs + [v]).1 ==
            if v.severity == LogOnly then Filtered(fold, text, vs).1
            else
              ReplaceAll(fold, Filtered(fold, text, vs).1, if v.full != "" then v.full else v.short, "[REDACTED]")
  {
    assert v in vs + [v] && forall w :: w in vs ==> w in vs + [v];
    FilteredText(fold, text, vs);
    FilteredText(fold, text, vs + [v]);
    OfSeverityAppend(vs, v, Redact);
    RedactionsAppend(fold, text, OfSeverity(vs, Redact), v);
  }

  lemma {:induction false} RedactionsAppend(fold: char -> char, text: string, vs: seq<Violation>, v: Violation)
    ensures Redactions(fold, text, vs + [v]) == ReplaceAll(fold, Redactions(fold, text, vs), v.Target(), MASK)
  {
    assert (vs + [v])[..|vs|] == vs;
  }

  lemma {:induction false} OfSeverityMembers(vs: seq<Violation>, s: Severity)
    ensures forall v :: v in OfSeverity(vs, s) <==> v in vs && v.severity == s
  {
    if vs != [] {
      OfSeverityMembers(vs[1..], s);
      assert vs == [vs[0]] + vs[1..];
    }
  }
}
