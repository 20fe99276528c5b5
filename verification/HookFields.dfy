/** When the separator between the fields of a tool input keeps a pattern from
    matching across them: exactly for the patterns whose only wildcards are
    stars at their ends, as those of the built-in denylist are. */
module HookFields {
  import opened Text
  import opened Hooks

  function LeftStripped(p: string): string {
    if p != "" && p[0] == '*' then LeftStripped(p[1..]) else p
  }

  function RightStripped(p: string): string {
    if p != "" && p[|p| - 1] == '*' then RightStripped(p[..|p| - 1]) else p
  }

  /** The pattern without the stars at its ends. */
  function Core(p: string): string { RightStripped(LeftStripped(p)) }

  /** No wildcard but stars at the ends, around something. */
  predicate StarsOutside(p: string) {
    p == "" || (Core(p) != "" && Literal(Core(p)))
  }

  ghost predicate LeafMatches(fold: char -> char, pattern: string, input: Json) {
    exists leaf :: HasLeaf(input, leaf) && GlobSearch(fold, pattern, leaf)
  }

  /** On no input does the joined text match where no field does. */
  ghost predicate NeverCrosses(fold: char -> char, pattern: string) {
    forall input: Json :: GlobSearch(fold, pattern, Flattened(input)) ==> LeafMatches(fold, pattern, input)
  }

  // ---- stars at the ends change nothing

  lemma {:induction false} CompiledFront(p: string)
    requires p != ""
    ensures Compiled(p) == Compiled(p[..|p| - 1]) + [PieceOf(p[|p| - 1])]
  {}

  lemma {:induction false} RunReaches(fold: char -> char, parts: seq<Piece>, t: string)
    requires parts != [] && parts[0] == AnyRun && MatchesFront(fold, parts, t)
    ensures Found(fold, parts[1..], t)
    decreases |t|
  {
    if MatchesFront(fold, parts[1..], t) {
      assert t[0..] == t;
    } else {
      RunReaches(fold, parts, t[1..]);
    }
  }

  lemma {:induction false} LeadingRun(fold: char -> char, parts: seq<Piece>, t: string)
    requires parts != [] && parts[0] == AnyRun
    ensures Found(fold, parts, t) <==> Found(fold, parts[1..], t)
  {
    if Found(fold, parts, t) {
      var i: nat :| i <= |t| && MatchesFront(fold, parts, t[i..]);
      RunReaches(fold, parts, t[i..]);
    }
    if Found(fold, parts[1..], t) {
      var i: nat :| i <= |t| && MatchesFront(fold, parts[1..], t[i..]);
      assert MatchesFront(fold, parts, t[i..]);
    }
  }

  lemma {:induction false} TrailingRun(fold: char -> char, parts: seq<Piece>, t: string)
    ensures MatchesFront(fold, parts + [AnyRun], t) <==> MatchesFront(fold, parts, t)
    decreases |parts| + |t|
  {
    var more := parts + [AnyRun];
    if parts == [] {
      assert more[1..] == [];
    } else {
      assert more[1..] == parts[1..] + [AnyRun];
      TrailingRun(fold, parts[1..], t);
      if t != "" {
        TrailingRun(fold, parts[1..], t[1..]);
        TrailingRun(fold, parts, t[1..]);
      }
    }
  }

  lemma {:induction false} LeftStrippedFinds(fold: char -> char, p: string, t: string)
    ensures Found(fold, Compiled(LeftStripped(p)), t) <==> Found(fold, Compiled(p), t)
  {
    if p != "" && p[0] == '*' {
      LeadingRun(fold, Compiled(p), t);
      LeftStrippedFinds(fold, p[1..], t);
    }
  }

  lemma {:induction false} RightStrippedFinds(fold: char -> char, p: string, t: string)
    ensures Found(fold, Compiled(RightStripped(p)), t) <==> Found(fold, Compiled(p), t)
  {
    if p != "" && p[|p| - 1] == '*' {
      CompiledFront(p);
      var front := p[..|p| - 1];
      forall i: nat | i <= |t|
        ensures MatchesFront(fold, Compiled(p), t[i..]) <==> MatchesFront(fold, Compiled(front), t[i..])
      {
        TrailingRun(fold, Compiled(front), t[i..]);
      }
      RightStrippedFinds(fold, front, t);
    }
  }

  /** A pattern finds what its core finds. */
  lemma {:induction false} CoreFinds(fold: char -> char, p: string, t: string)
    ensures Found(fold, Compiled(Core(p)), t) <==> Found(fold, Compiled(p), t)
  {
    RightStrippedFinds(fold, LeftStripped(p), t);
    LeftStrippedFinds(fold, p, t);
  }

  lemma {:induction false} StrippedParts(p: string)
    ensures forall c :: c in LeftStripped(p) ==> c in p
    ensures forall c :: c in RightStripped(p) ==> c in p
    ensures LeftStripped(p) != "" ==> LeftStripped(p)[0] != '*'
    ensures var r := RightStripped(p); r != "" ==> r[|r| - 1] != '*' && r[0] == p[0]
    ensures p == "" ==> LeftStripped(p) == RightStripped(p) == ""
  {
    if p != "" {
      StrippedParts(p[1..]);
      StrippedParts(p[..|p| - 1]);
    }
  }

  lemma {:induction false} CoreIsTight(p: string)
    ensures forall c :: c in Core(p) ==> c in p
    ensures var c := Core(p); c != "" ==> c[0] != '*' && c[|c| - 1] != '*'
  {
    StrippedParts(p);
    StrippedParts(LeftStripped(p));
  }

  // ---- such patterns match one field

  lemma {:induction false} StarsOutsideMatchOneLeaf(fold: char -> char, p: string, input: Json)
    requires StarsOutside(p) && WithoutSeparator(fold, p) && GlobSearch(fold, p, Flattened(input))
    ensures LeafMatches(fold, p, input)
  {
    var core := Core(p);
    CoreIsTight(p);
    assert WithoutSeparator(fold, core) by {
      forall i | 0 <= i < |core| ensures fold(core[i]) != fold(SEPARATOR) {
        assert core[i] in core;
        var k :| 0 <= k < |p| && p[k] == core[i];
      }
    }
    CoreFinds(fold, p, Flattened(input));
    LiteralMatchesOneLeaf(fold, core, input);
    var leaf :| HasLeaf(input, leaf) && GlobSearch(fold, core, leaf);
    CoreFinds(fold, p, leaf);
  }

  // ---- an inner wildcard crosses fields

  /** A text that matches: a run is empty, and any character is a question mark. */
  function Instance(p: string): string {
    if p == "" then ""
    else (if p[0] == '*' then "" else [p[0]]) + Instance(p[1..])
  }

  lemma {:induction false} EmptyRun(fold: char -> char, parts: seq<Piece>, t: string)
    requires MatchesFront(fold, parts, t)
    ensures MatchesFront(fold, [AnyRun] + parts, t)
  {
    assert ([AnyRun] + parts)[1..] == parts;
  }

  /** A piece that is not a run, before the character that it takes. */
  lemma {:induction false} OneCharacter(fold: char -> char, piece: Piece, parts: seq<Piece>, c: char, t: string)
    requires MatchesFront(fold, parts, t) && (piece == Char(c) || (piece == AnyOne && c != '\n'))
    ensures MatchesFront(fold, [piece] + parts, [c] + t)
  {
    assert ([piece] + parts)[1..] == parts && ([c] + t)[1..] == t;
  }

  lemma {:induction false} InstanceStep(p: string, t: string)
    requires p != ""
    ensures Instance(p) + t == if p[0] == '*' then Instance(p[1..]) + t else [p[0]] + (Instance(p[1..]) + t)
  {}

  lemma {:induction false} CompiledStep(p: string, parts: seq<Piece>)
    requires p != ""
    ensures Compiled(p) + parts == [PieceOf(p[0])] + (Compiled(p[1..]) + parts)
  {}

  lemma {:induction false} InstanceMatches(fold: char -> char, p: string, parts: seq<Piece>, t: string)
    requires MatchesFront(fold, parts, t)
    ensures MatchesFront(fold, Compiled(p) + parts, Instance(p) + t)
    decreases |p|
  {
    if p == "" {
      assert Compiled(p) + parts == parts && Instance(p) + t == t;
    } else {
      InstanceMatches(fold, p[1..], parts, t);
      InstanceStep(p, t);
      CompiledStep(p, parts);
      if p[0] == '*' {
        EmptyRun(fold, Compiled(p[1..]) + parts, Instance(p[1..]) + t);
      } else {
        OneCharacter(fold, PieceOf(p[0]), Compiled(p[1..]) + parts, p[0], Instance(p[1..]) + t);
      }
    }
  }

  /** How many characters a match has at least. */
  function Least(p: string): nat {
    if p == "" then 0 else (if p[0] == '*' then 0 else 1) + Least(p[1..])
  }

  lemma {:induction false} LeastIsLeast(fold: char -> char, p: string, t: string)
    requires MatchesFront(fold, Compiled(p), t)
    ensures Least(p) <= |t|
    decreases |p| + |t|
  {
    if p != "" {
      if p[0] != '*' {
        LeastIsLeast(fold, p[1..], t[1..]);
      } else if MatchesFront(fold, Compiled(p)[1..], t) {
        LeastIsLeast(fold, p[1..], t);
      } else {
        LeastIsLeast(fold, p, t[1..]);
      }
    }
  }

  lemma {:induction false} TooShort(fold: char -> char, p: string, t: string)
    requires |t| < Least(p)
    ensures !Found(fold, Compiled(p), t)
  {
    if Found(fold, Compiled(p), t) {
      var i: nat :| i <= |t| && MatchesFront(fold, Compiled(p), t[i..]);
      LeastIsLeast(fold, p, t[i..]);
    }
  }

  lemma {:induction false} LeastOf(p: string, q: string)
    ensures Least(p + q) == Least(p) + Least(q) && |Instance(p)| == Least(p)
    ensures p != "" && (p[0] != '*' || p[|p| - 1] != '*') ==> Least(p) > 0
  {
    if p == "" {
      assert p + q == q;
    } else {
      assert (p + q)[1..] == p[1..] + q;
      LeastOf(p[1..], q);
    }
  }

  /** Two fields that a pattern with a wildcard at `i` matches only jointly. */
  function Fields(p: string, i: nat): Json
    requires i < |p|
  {
    Obj(["x", "y"], [Str(Instance(p[..i])), Str(Instance(p[i + 1..]))])
  }

  lemma {:induction false} FieldLeaves(a: string, b: string)
    ensures Flattened(Obj(["x", "y"], [Str(a), Str(b)])) == a + (['\U{001F}'] + b)
    ensures forall leaf :: HasLeaf(Obj(["x", "y"], [Str(a), Str(b)]), leaf) <==> leaf == a || leaf == b
  {
    var js := [Str(a), Str(b)];
    assert js[1..] == [Str(b)] && js[1..][1..] == [];
    assert ItemLeaves(js[1..]) == [b] && ItemLeaves(js) == [a, b];
    assert [a, b][1..] == [b] && Join([b]) == b;
    assert Join([a, b]) == a + [SEPARATOR] + b;
    Assoc(a, [SEPARATOR], b);
    forall leaf ensures HasLeaf(Obj(["x", "y"], js), leaf) <==> leaf == a || leaf == b {
      assert HasLeaf(js[0], leaf) <==> leaf == a;
      assert HasLeaf(js[1], leaf) <==> leaf == b;
    }
  }

  lemma {:induction false} JoinedMatches(fold: char -> char, u: string, w: char, v: string)
    requires w == '*' || w == '?'
    ensures MatchesFront(fold, Compiled(u + [w] + v), Instance(u) + ([SEPARATOR] + Instance(v)))
  {
    InstanceMatches(fold, v, [], "");
    assert Compiled(v) + [] == Compiled(v) && Instance(v) + "" == Instance(v);
    InstanceMatches(fold, u, [PieceOf(w)] + Compiled(v), [SEPARATOR] + Instance(v));
    CompiledJoined(u, w, v);
  }

  lemma {:induction false} CompiledJoined(u: string, w: char, v: string)
    ensures Compiled(u + [w] + v) == Compiled(u) + ([PieceOf(w)] + Compiled(v))
  {}

  /** Around the wildcard both sides are shorter than any match of the whole. */
  lemma {:induction false} SidesTooShort(p: string, i: nat)
    requires i < |p| && (p[i] == '*' || p[i] == '?') && p[0] != '*' && p[|p| - 1] != '*'
    ensures |Instance(p[..i])| < Least(p) && |Instance(p[i + 1..])| < Least(p)
  {
    var u, w, v := p[..i], [p[i]], p[i + 1..];
    assert p == u + (w + v);
    LeastOf(u, w + v);
    LeastOf(w, v);
    LeastOf(v, "");
    assert Least(w) == if p[i] == '*' then 0 else 1 by {
      assert w[1..] == "";
    }
    assert u != "" ==> u[0] == p[0];
    assert v != "" ==> v[|v| - 1] == p[|p| - 1];
  }

  lemma {:induction false} WildcardCrosses(fold: char -> char, p: string, i: nat)
    requires i < |Core(p)| && (Core(p)[i] == '*' || Core(p)[i] == '?')
    ensures GlobSearch(fold, p, Flattened(Fields(Core(p), i))) && !LeafMatches(fold, p, Fields(Core(p), i))
  {
    var core := Core(p);
    var a, b := Instance(core[..i]), Instance(core[i + 1..]);
    CoreIsTight(p);
    SidesTooShort(core, i);
    FieldLeaves(a, b);
    JoinedMatches(fold, core[..i], core[i], core[i + 1..]);
    assert core == core[..i] + [core[i]] + core[i + 1..];
    var text := a + ([SEPARATOR] + b);
    assert text[0..] == text;
    CoreFinds(fold, p, text);
    forall leaf | leaf == a || leaf == b ensures !GlobSearch(fold, p, leaf) {
      TooShort(fold, core, leaf);
      CoreFinds(fold, p, leaf);
    }
    assert p != "" by {
      StrippedParts(p);
    }
  }

  /** Stars alone match the separator between two empty fields. */
  lemma {:induction false} StarsCross(fold: char -> char, p: string)
    requires p != "" && Core(p) == ""
    ensures var input := Obj(["x", "y"], [Str(""), Str("")]);
            GlobSearch(fold, p, Flattened(input)) && !LeafMatches(fold, p, input)
  {
    FieldLeaves("", "");
    var text := "" + ([SEPARATOR] + "");
    CoreFinds(fold, p, text);
    assert MatchesFront(fold, Compiled(""), text[0..]);
  }

  /** Joining the fields creates no match on any input exactly when the pattern
      is empty or, without the stars at its ends, a non-empty text without
      wildcards. */
  lemma {:induction false} JoiningCreatesNoMatchIff(fold: char -> char, p: string)
    requires WithoutSeparator(fold, p)
    ensures NeverCrosses(fold, p) <==> StarsOutside(p)
  {
    if StarsOutside(p) {
      forall input: Json | GlobSearch(fold, p, Flattened(input)) ensures LeafMatches(fold, p, input) {
        StarsOutsideMatchOneLeaf(fold, p, input);
      }
    } else if Core(p) == "" {
      StarsCross(fold, p);
    } else {
      var i :| 0 <= i < |Core(p)| && (Core(p)[i] == '*' || Core(p)[i] == '?');
      WildcardCrosses(fold, p, i);
    }
  }

  // ---- the form of the built-in patterns

  predicate AllStars(s: string) {
    forall i :: 0 <= i < |s| ==> s[i] == '*'
  }

  lemma {:induction false} StarsAround(pre: string, core: string, post: string)
    requires AllStars(pre) && AllStars(post) && core != "" && Literal(core)
    ensures StarsOutside(pre + (core + post))
  {
    StarsBefore(pre, core + post);
    StarsAfter(core, post);
  }

  lemma {:induction false} StarsBefore(pre: string, rest: string)
    requires AllStars(pre) && rest != "" && rest[0] != '*'
    ensures LeftStripped(pre + rest) == rest
  {
    if pre == "" {
      assert pre + rest == rest;
    } else {
      assert (pre + rest)[1..] == pre[1..] + rest;
      StarsBefore(pre[1..], rest);
    }
  }

  lemma {:induction false} StarsAfter(core: string, post: string)
    requires AllStars(post) && core != "" && Literal(core)
    ensures RightStripped(core + post) == core
  {
    if post == "" {
      assert core + post == core;
    } else {
      var n := |post| - 1;
      assert (core + post)[..|core| + n] == core + post[..n];
      StarsAfter(core, post[..n]);
    }
  }

  /** Stars, a text without wildcards, stars: the form of every built-in
      pattern. None matches across two fields. */
  lemma {:induction false} StarsAroundNeverCross(fold: char -> char, pre: string, core: string, post: string)
    requires AllStars(pre) && AllStars(post) && core != "" && Literal(core)
    requires WithoutSeparator(fold, pre + (core + post))
    ensures NeverCrosses(fold, pre + (core + post))
  {
    StarsAround(pre, core, post);
    JoiningCreatesNoMatchIff(fold, pre + (core + post));
  }
}
