/** Why restoring undoes pseudonymizing, and exactly when it does. */
module Pseudonyms {
  import opened Text
  import opened UpstreamFilters
  import ContentFilter

  // ---- the text seen as literals and, possibly nested, placeholders

  /** A later original may sit inside an earlier placeholder, whose inner text
      then holds a placeholder itself. */
  datatype Tokens = Nil | Lit(c: char, rest: Tokens) | Tag(id: nat, body: Tokens, rest: Tokens)

  function Render(t: Tokens): string {
    match t
    case Nil => ""
    case Lit(c, r) => [c] + Render(r)
    case Tag(_, b, r) => "[" + Render(b) + "]" + Render(r)
  }

  function Lits(s: string, rest: Tokens): Tokens {
    if s == "" then rest else Lit(s[0], Lits(s[1..], rest))
  }

  predicate Flat(t: Tokens) {
    match t
    case Nil => true
    case Lit(_, r) => Flat(r)
    case Tag(_, _, _) => false
  }

  predicate AllFlat(t: Tokens) {
    match t
    case Nil => true
    case Lit(_, r) => AllFlat(r)
    case Tag(_, b, r) => Flat(b) && AllFlat(r)
  }

  function Ids(t: Tokens): set<nat> {
    match t
    case Nil => {}
    case Lit(_, r) => Ids(r)
    case Tag(i, b, r) => {i} + Ids(b) + Ids(r)
  }

  /** Every tag put back as the original it replaced. */
  function Expand(t: Tokens, vs: seq<Violation>): string {
    match t
    case Nil => ""
    case Lit(c, r) => [c] + Expand(r, vs)
    case Tag(i, _, r) => (if i < |vs| then vs[i].Original() else "") + Expand(r, vs)
  }

  /** Literals hold no bracket, tags are known, a tag's body expands to its own
      inner text, and tags inside it are younger. */
  predicate Sound(t: Tokens, vs: seq<Violation>) {
    match t
    case Nil => true
    case Lit(c, r) => c != '[' && c != ']' && Sound(r, vs)
    case Tag(i, b, r) =>
      && i < |vs| && Expand(b, vs) == Inner(vs, i)
      && (forall j :: j in Ids(b) ==> i < j)
      && Sound(b, vs) && Sound(r, vs)
  }

  predicate Starts(o: string, t: Tokens) {
    o == "" || (t.Lit? && t.c == o[0] && Starts(o[1..], t.rest))
  }

  function Drop(n: nat, t: Tokens): (r: Tokens)
    decreases n
    ensures n > 0 && t.Lit? ==> r < t
  {
    if n == 0 then t else match t
      case Nil => Nil
      case Lit(_, r) => Drop(n - 1, r)
      case Tag(_, _, r) => t
  }

  /** One pseudonymizing replacement, on tokens. */
  function Subst(t: Tokens, o: string, i: nat, inner: string): Tokens
    requires o != ""
  {
    match t
    case Nil => Nil
    case Lit(c, r) =>
      if Starts(o, t) then Tag(i, Lits(inner, Nil), Subst(Drop(|o|, t), o, i, inner))
      else Lit(c, Subst(r, o, i, inner))
    case Tag(j, b, r) => Tag(j, Subst(b, o, i, inner), Subst(r, o, i, inner))
  }

  /** One restoring replacement, on tokens. */
  function Undo(t: Tokens, inner: string, o: string): Tokens {
    match t
    case Nil => Nil
    case Lit(c, r) => Lit(c, Undo(r, inner, o))
    case Tag(j, b, r) =>
      if Flat(b) && Render(b) == inner then Lits(o, Undo(r, inner, o))
      else Tag(j, Undo(b, inner, o), Undo(r, inner, o))
  }

  // ---- rendering commutes with both replacements

  lemma {:induction false} RenderLits(s: string, t: Tokens)
    ensures Render(Lits(s, t)) == s + Render(t)
  {
    if s == "" {
      assert s + Render(t) == Render(t);
    } else {
      RenderLits(s[1..], t);
      assert [s[0]] + (s[1..] + Render(t)) == s + Render(t);
    }
  }

  lemma {:induction false} LitsAddNoTag(s: string, t: Tokens)
    ensures Flat(t) ==> Flat(Lits(s, t))
    ensures AllFlat(t) ==> AllFlat(Lits(s, t))
    ensures Ids(Lits(s, t)) == Ids(t)
  {
    if s != "" {
      LitsAddNoTag(s[1..], t);
    }
  }

  lemma {:induction false} LitsSound(s: string, t: Tokens, vs: seq<Violation>)
    requires BracketFree(s) && Sound(t, vs)
    ensures Sound(Lits(s, t), vs) && Expand(Lits(s, t), vs) == s + Expand(t, vs)
  {
    if s != "" {
      LitsSound(s[1..], t, vs);
    }
  }

  /** What follows a piece of rendered text: nothing, or a closing bracket. */
  predicate Edge(tail: string) {
    tail == "" || tail[0] == ']'
  }

  lemma {:induction false} StartsIsMatch(o: string, t: Tokens, tail: string)
    requires BracketFree(o) && Edge(tail)
    ensures Starts(o, t) <==> MatchesAt(Exactly, o, Render(t) + tail, 0)
    decreases o
  {
    if o != "" {
      MatchHead(Exactly, o, Render(t) + tail);
      if t.Lit? {
        StartsIsMatch(o[1..], t.rest, tail);
        assert (Render(t) + tail)[1..] == Render(t.rest) + tail;
      }
    }
  }

  lemma {:induction false} StartsSplits(o: string, t: Tokens)
    requires Starts(o, t)
    ensures Render(t) == o + Render(Drop(|o|, t))
    decreases o
  {
    if o == "" {
      assert o + Render(t) == Render(t);
    } else {
      StartsSplits(o[1..], t.rest);
      Assoc([o[0]], o[1..], Render(Drop(|o|, t)));
      assert [o[0]] + o[1..] == o;
    }
  }

  lemma {:induction false} Group(x: string, rest: string)
    ensures "[" + x + "]" + rest == ['['] + (x + ([']'] + rest))
  {
    Assoc("[" + x, "]", rest);
    Assoc("[", x, "]" + rest);
  }

  /** A character that cannot start a match is copied. */
  lemma {:induction false} CopyOne(c: char, rest: string, pat: string, rep: string)
    requires pat != "" && pat[0] != c
    ensures ReplaceAll(Exactly, [c] + rest, pat, rep) == [c] + ReplaceAll(Exactly, rest, pat, rep)
  {
    MatchHead(Exactly, pat, [c] + rest);
  }

  /** A bracketed group at which no match starts is copied around its content. */
  lemma {:induction false} CopyUnmatchedGroup(x: string, y: string, rest: string, pat: string, rep: string)
    requires pat != "" && pat[0] != ']' && !MatchesAt(Exactly, pat, "[" + x + "]" + rest, 0)
    requires ReplaceAll(Exactly, x + ("]" + rest), pat, rep) == y + ReplaceAll(Exactly, "]" + rest, pat, rep)
    ensures ReplaceAll(Exactly, "[" + x + "]" + rest, pat, rep) ==
            "[" + y + "]" + ReplaceAll(Exactly, rest, pat, rep)
  {
    Group(x, rest);
    CopyOne(']', rest, pat, rep);
    Group(y, ReplaceAll(Exactly, rest, pat, rep));
  }

  lemma {:induction false} SubstRenders(t: Tokens, o: string, i: nat, inner: string, tail: string)
    requires o != "" && BracketFree(o) && Edge(tail)
    ensures ReplaceAll(Exactly, Render(t) + tail, o, "[" + inner + "]") ==
            Render(Subst(t, o, i, inner)) + ReplaceAll(Exactly, tail, o, "[" + inner + "]")
    decreases t
  {
    match t
    case Nil =>
      assert Render(t) + tail == tail;
    case Lit(c, r) =>
      StartsIsMatch(o, t, tail);
      if Starts(o, t) {
        SubstRenders(Drop(|o|, t), o, i, inner, tail);
        SubstHit(t, o, i, inner, tail);
      } else {
        SubstRenders(r, o, i, inner, tail);
        assert (Render(t) + tail)[1..] == Render(r) + tail;
      }
    case Tag(j, b, r) =>
      SubstRenders(b, o, i, inner, "]" + (Render(r) + tail));
      SubstRenders(r, o, i, inner, tail);
      SubstTag(t, o, i, inner, tail);
  }

  lemma {:induction false} SubstTag(t: Tokens, o: string, i: nat, inner: string, tail: string)
    requires o != "" && BracketFree(o) && t.Tag?
    requires ReplaceAll(Exactly, Render(t.rest) + tail, o, "[" + inner + "]") ==
             Render(Subst(t.rest, o, i, inner)) + ReplaceAll(Exactly, tail, o, "[" + inner + "]")
    requires ReplaceAll(Exactly, Render(t.body) + ("]" + (Render(t.rest) + tail)), o, "[" + inner + "]") ==
             Render(Subst(t.body, o, i, inner)) +
             ReplaceAll(Exactly, "]" + (Render(t.rest) + tail), o, "[" + inner + "]")
    ensures ReplaceAll(Exactly, Render(t) + tail, o, "[" + inner + "]") ==
            Render(Subst(t, o, i, inner)) + ReplaceAll(Exactly, tail, o, "[" + inner + "]")
  {
    var rep := "[" + inner + "]";
    var x, y := Render(t.body), Render(Subst(t.body, o, i, inner));
    var rest := Render(t.rest) + tail;
    MatchHead(Exactly, o, "[" + x + "]" + rest);
    CopyUnmatchedGroup(x, y, rest, o, rep);
    Assoc("[" + x + "]", Render(t.rest), tail);
    Assoc("[" + y + "]", Render(Subst(t.rest, o, i, inner)), ReplaceAll(Exactly, tail, o, rep));
  }

  lemma {:induction false} SubstHit(t: Tokens, o: string, i: nat, inner: string, tail: string)
    requires o != "" && BracketFree(o) && Edge(tail) && t.Lit? && Starts(o, t)
    requires ReplaceAll(Exactly, Render(Drop(|o|, t)) + tail, o, "[" + inner + "]") ==
             Render(Subst(Drop(|o|, t), o, i, inner)) + ReplaceAll(Exactly, tail, o, "[" + inner + "]")
    ensures ReplaceAll(Exactly, Render(t) + tail, o, "[" + inner + "]") ==
            Render(Subst(t, o, i, inner)) + ReplaceAll(Exactly, tail, o, "[" + inner + "]")
  {
    var d := Drop(|o|, t);
    var rep := "[" + inner + "]";
    StartsIsMatch(o, t, tail);
    StartsSplits(o, t);
    Assoc(o, Render(d), tail);
    ReplaceHit(Exactly, o, Render(d) + tail, o, rep);
    assert Render(Lits(inner, Nil)) == inner by {
      RenderLits(inner, Nil);
    }
    Assoc(rep, Render(Subst(d, o, i, inner)), ReplaceAll(Exactly, tail, o, rep));
  }

  lemma {:induction false} InnerMatch(inner: string, b: Tokens, rest: string)
    requires BracketFree(inner) && BracketFreeLits(b)
    ensures MatchesAt(Exactly, inner + "]", Render(b) + "]" + rest, 0) <==> Flat(b) && Render(b) == inner
    decreases inner
  {
    var pat := inner + "]";
    var s := Render(b) + "]" + rest;
    MatchHead(Exactly, pat, s);
    if b.Lit? && inner != "" {
      InnerMatch(inner[1..], b.rest, rest);
      assert pat[1..] == inner[1..] + "]";
      assert s[1..] == Render(b.rest) + "]" + rest;
      if b.c == inner[0] && Render(b.rest) == inner[1..] {
        assert [inner[0]] + inner[1..] == inner;
      }
      if Render(b) == inner {
        assert Render(b)[1..] == Render(b.rest);
      }
    } else if b.Nil? && inner == "" {
      assert MatchesAt(Exactly, pat[1..], s[1..], 0);
    }
  }

  predicate BracketFreeLits(t: Tokens) {
    match t
    case Nil => true
    case Lit(c, r) => c != '[' && c != ']' && BracketFreeLits(r)
    case Tag(_, b, r) => BracketFreeLits(b) && BracketFreeLits(r)
  }

  lemma {:induction false} UndoRenders(t: Tokens, inner: string, o: string, tail: string)
    requires BracketFree(inner) && BracketFreeLits(t)
    ensures ReplaceAll(Exactly, Render(t) + tail, "[" + inner + "]", o) ==
            Render(Undo(t, inner, o)) + ReplaceAll(Exactly, tail, "[" + inner + "]", o)
    decreases t
  {
    match t
    case Nil =>
      assert Render(t) + tail == tail;
    case Lit(c, r) =>
      UndoRenders(r, inner, o, tail);
      CopyOne(c, Render(r) + tail, "[" + inner + "]", o);
      assert Render(t) + tail == [c] + (Render(r) + tail);
    case Tag(j, b, r) =>
      UndoRenders(r, inner, o, tail);
      if Flat(b) && Render(b) == inner {
        UndoHit(t, inner, o, tail);
      } else {
        UndoRenders(b, inner, o, "]" + (Render(r) + tail));
        UndoMiss(t, inner, o, tail);
      }
  }

  lemma {:induction false} GroupMatch(inner: string, b: Tokens, rest: string)
    requires BracketFree(inner) && BracketFreeLits(b)
    ensures MatchesAt(Exactly, "[" + inner + "]", "[" + Render(b) + "]" + rest, 0) <==>
            Flat(b) && Render(b) == inner
  {
    var p, s := "[" + inner + "]", "[" + Render(b) + "]" + rest;
    MatchHead(Exactly, p, s);
    InnerMatch(inner, b, rest);
    assert p[1..] == inner + "]" && s[1..] == Render(b) + "]" + rest;
  }

  lemma {:induction false} UndoHit(t: Tokens, inner: string, o: string, tail: string)
    requires BracketFree(inner) && BracketFreeLits(t) && t.Tag? && Flat(t.body) && Render(t.body) == inner
    requires ReplaceAll(Exactly, Render(t.rest) + tail, "[" + inner + "]", o) ==
             Render(Undo(t.rest, inner, o)) + ReplaceAll(Exactly, tail, "[" + inner + "]", o)
    ensures ReplaceAll(Exactly, Render(t) + tail, "[" + inner + "]", o) ==
            Render(Undo(t, inner, o)) + ReplaceAll(Exactly, tail, "[" + inner + "]", o)
  {
    var p := "[" + inner + "]";
    var rest := Render(t.rest) + tail;
    GroupMatch(inner, t.body, rest);
    Assoc(p, Render(t.rest), tail);
    ReplaceHit(Exactly, p, rest, p, o);
    RenderLits(o, Undo(t.rest, inner, o));
    Assoc(o, Render(Undo(t.rest, inner, o)), ReplaceAll(Exactly, tail, p, o));
  }

  lemma {:induction false} UndoMiss(t: Tokens, inner: string, o: string, tail: string)
    requires BracketFree(inner) && BracketFreeLits(t) && t.Tag? && !(Flat(t.body) && Render(t.body) == inner)
    requires ReplaceAll(Exactly, Render(t.rest) + tail, "[" + inner + "]", o) ==
             Render(Undo(t.rest, inner, o)) + ReplaceAll(Exactly, tail, "[" + inner + "]", o)
    requires ReplaceAll(Exactly, Render(t.body) + ("]" + (Render(t.rest) + tail)), "[" + inner + "]", o) ==
             Render(Undo(t.body, inner, o)) +
             ReplaceAll(Exactly, "]" + (Render(t.rest) + tail), "[" + inner + "]", o)
    ensures ReplaceAll(Exactly, Render(t) + tail, "[" + inner + "]", o) ==
            Render(Undo(t, inner, o)) + ReplaceAll(Exactly, tail, "[" + inner + "]", o)
  {
    var p := "[" + inner + "]";
    var rest := Render(t.rest) + tail;
    var x, y := Render(t.body), Render(Undo(t.body, inner, o));
    GroupMatch(inner, t.body, rest);
    Assoc("[" + x + "]", Render(t.rest), tail);
    CopyUnmatchedGroup(x, y, rest, p, o);
    Assoc("[" + y + "]", Render(Undo(t.rest, inner, o)), ReplaceAll(Exactly, tail, p, o));
  }

  // ---- which originals are found

  predicate Has(t: Tokens, o: string) {
    match t
    case Nil => false
    case Lit(_, r) => Starts(o, t) || Has(r, o)
    case Tag(_, b, r) => Has(b, o) || Has(r, o)
  }

  /** A bracket-free original never straddles a placeholder's edge. */
  lemma {:induction false} HasIsOccurs(t: Tokens, o: string, tail: string)
    requires o != "" && BracketFree(o) && Edge(tail)
    ensures Occurs(Exactly, o, Render(t) + tail) <==> Has(t, o) || Occurs(Exactly, o, tail)
    decreases t
  {
    match t
    case Nil =>
      assert Render(t) + tail == tail;
    case Lit(c, r) =>
      StartsIsMatch(o, t, tail);
      OccursStep(Exactly, o, Render(t) + tail);
      assert (Render(t) + tail)[1..] == Render(r) + tail;
      HasIsOccurs(r, o, tail);
    case Tag(_, b, r) =>
      var rest := Render(r) + tail;
      HasIsOccurs(r, o, tail);
      HasIsOccurs(b, o, "]" + rest);
      NotAtBracket(o, ']', rest);
      NotAtBracket(o, '[', Render(b) + ("]" + rest));
      Group(Render(b), rest);
      Assoc("[" + Render(b) + "]", Render(r), tail);
  }

  lemma {:induction false} NotAtBracket(o: string, c: char, rest: string)
    requires o != "" && BracketFree(o) && (c == '[' || c == ']')
    ensures Occurs(Exactly, o, [c] + rest) <==> Occurs(Exactly, o, rest)
  {
    OccursStep(Exactly, o, [c] + rest);
    MatchHead(Exactly, o, [c] + rest);
    assert ([c] + rest)[1..] == rest;
  }

  lemma {:induction false} OccursInPlaceholder(o: string, inner: string)
    requires o != "" && BracketFree(o)
    ensures Occurs(Exactly, o, "[" + inner + "]") <==> Occurs(Exactly, o, inner)
  {
    var b := Lits(inner, Nil);
    RenderLits(inner, Nil);
    assert Render(b) == inner && Render(b) + "" == inner;
    HasIsOccurs(b, o, "");
    HasIsOccurs(Tag(0, b, Nil), o, "");
    assert Render(Tag(0, b, Nil)) + "" == "[" + inner + "]";
  }

  // ---- what a pseudonymizing step keeps

  lemma {:induction false} FlatExpands(b: Tokens, vs: seq<Violation>)
    requires Flat(b)
    ensures Expand(b, vs) == Render(b) && Ids(b) == {}
  {
    if b.Lit? {
      FlatExpands(b.rest, vs);
    }
  }

  lemma {:induction false} StartsExpands(o: string, t: Tokens, vs: seq<Violation>)
    requires Starts(o, t)
    ensures Expand(t, vs) == o + Expand(Drop(|o|, t), vs)
    decreases o
  {
    if o != "" {
      StartsExpands(o[1..], t.rest, vs);
      Assoc([o[0]], o[1..], Expand(Drop(|o|, t), vs));
      assert [o[0]] + o[1..] == o;
    }
  }

  lemma {:induction false} StartsSound(o: string, t: Tokens, vs: seq<Violation>)
    requires Starts(o, t) && Sound(t, vs)
    ensures Sound(Drop(|o|, t), vs) && Ids(Drop(|o|, t)) == Ids(t)
    decreases o
  {
    if o != "" {
      StartsSound(o[1..], t.rest, vs);
    }
  }

  lemma {:induction false} StartsKeeps(o: string, t: Tokens, vs: seq<Violation>)
    requires Starts(o, t) && Sound(t, vs)
    ensures Expand(t, vs) == o + Expand(Drop(|o|, t), vs)
    ensures Sound(Drop(|o|, t), vs) && Ids(Drop(|o|, t)) == Ids(t)
  {
    StartsExpands(o, t, vs);
    StartsSound(o, t, vs);
  }

  lemma {:induction false} IdsNest(t: Tokens)
    ensures t.Lit? ==> Ids(t.rest) == Ids(t)
    ensures t.Tag? ==> Ids(t.body) <= Ids(t) && Ids(t.rest) <= Ids(t) && t.id in Ids(t)
  {}

  predicate Clean(vs: seq<Violation>) {
    forall i :: 0 <= i < |vs| ==> BracketFree(vs[i].rule) && BracketFree(vs[i].Original())
  }

  lemma {:induction false} InnerBracketFree(vs: seq<Violation>, i: nat)
    requires i < |vs| && BracketFree(vs[i].rule)
    ensures BracketFree(Inner(vs, i))
  {
    DecimalReadsBack(i);
    var a, d := "PSEUDO_" + vs[i].rule + "_", Decimal(i);
    assert forall k :: 0 <= k < |d| ==> IsDigit(d[k]);
    assert forall k :: 0 <= k < |vs[i].rule| ==> vs[i].rule[k] != '[' && vs[i].rule[k] != ']';
  }

  lemma {:induction false} SubstKeeps(t: Tokens, vs: seq<Violation>, i: nat)
    requires i < |vs| && Clean(vs) && vs[i].Original() != "" && Sound(t, vs)
    requires forall j :: j in Ids(t) ==> j < i
    ensures var s := Subst(t, vs[i].Original(), i, Inner(vs, i));
            Sound(s, vs) && Expand(s, vs) == Expand(t, vs) && Ids(t) <= Ids(s) <= Ids(t) + {i}
    decreases t
  {
    IdsNest(t);
    var o, inner := vs[i].Original(), Inner(vs, i);
    match t
    case Nil =>
    case Lit(c, r) =>
      if Starts(o, t) {
        StartsKeeps(o, t, vs);
        SubstKeeps(Drop(|o|, t), vs, i);
        InnerBracketFree(vs, i);
        LitsSound(inner, Nil, vs);
        LitsAddNoTag(inner, Nil);
        assert inner + Expand(Nil, vs) == inner;
      } else {
        SubstKeeps(r, vs, i);
      }
    case Tag(j, b, r) =>
      SubstKeeps(b, vs, i);
      SubstKeeps(r, vs, i);
  }

  lemma {:induction false} SubstInserts(t: Tokens, o: string, i: nat, inner: string)
    requires o != ""
    ensures Has(t, o) ==> i in Ids(Subst(t, o, i, inner)) && !Flat(Subst(t, o, i, inner))
    ensures !Has(t, o) ==> Subst(t, o, i, inner) == t
    ensures !Flat(t) ==> !Flat(Subst(t, o, i, inner))
    decreases t
  {
    match t
    case Nil =>
    case Lit(c, r) =>
      if !Starts(o, t) {
        SubstInserts(r, o, i, inner);
      }
    case Tag(j, b, r) =>
      SubstInserts(b, o, i, inner);
      SubstInserts(r, o, i, inner);
  }

  /** The step keeps every body flat exactly when it enters none of them. */
  lemma {:induction false} SubstFlatness(t: Tokens, vs: seq<Violation>, o: string, i: nat, inner: string)
    requires o != "" && BracketFree(o) && Sound(t, vs)
    ensures AllFlat(Subst(t, o, i, inner)) <==>
            AllFlat(t) && forall j :: j in Ids(t) && j < |vs| ==> !Occurs(Exactly, o, Inner(vs, j))
    decreases t
  {
    IdsNest(t);
    IdsKnown(t, vs);
    match t
    case Nil =>
    case Lit(c, r) =>
      if Starts(o, t) {
        StartsKeeps(o, t, vs);
        StartsFlat(o, t);
        SubstFlatness(Drop(|o|, t), vs, o, i, inner);
        LitsAddNoTag(inner, Nil);
      } else {
        SubstFlatness(r, vs, o, i, inner);
      }
    case Tag(j, b, r) =>
      SubstFlatness(r, vs, o, i, inner);
      SubstInserts(b, o, i, inner);
      if Flat(b) {
        FlatExpands(b, vs);
        HasIsOccurs(b, o, "");
        assert Render(b) + "" == Inner(vs, j);
        NothingIn(o);
      }
  }

  lemma {:induction false} NothingIn(o: string)
    requires o != ""
    ensures !Occurs(Exactly, o, "")
  {}

  lemma {:induction false} StartsFlat(o: string, t: Tokens)
    requires Starts(o, t)
    ensures AllFlat(Drop(|o|, t)) == AllFlat(t)
    decreases o
  {
    if o != "" {
      StartsFlat(o[1..], t.rest);
    }
  }

  lemma {:induction false} IdsKnown(t: Tokens, vs: seq<Violation>)
    requires Sound(t, vs)
    ensures forall j :: j in Ids(t) ==> j < |vs|
    ensures BracketFreeLits(t)
  {
    match t
    case Nil =>
    case Lit(_, r) => IdsKnown(r, vs);
    case Tag(_, b, r) =>
      IdsKnown(b, vs);
      IdsKnown(r, vs);
  }

  // ---- what a restoring step keeps

  lemma {:induction false} SuffixDecides(a: string, d: string, b: string, e: string)
    requires a + "_" + d == b + "_" + e && AllDigits(d) && AllDigits(e)
    ensures |d| >= |e|
  {
    var s := a + "_" + d;
    assert s[|a|] == '_';
    forall k | |b| < k < |s| ensures IsDigit(s[k]) {
      assert s[k] == e[k - |b| - 1];
    }
  }

  /** Two placeholders differ whatever the rule names are. */
  lemma {:induction false} InnerInjective(vs: seq<Violation>, i: nat, j: nat)
    requires i < |vs| && j < |vs| && Inner(vs, i) == Inner(vs, j)
    ensures i == j
  {
    DecimalReadsBack(i);
    DecimalReadsBack(j);
    var d, e := Decimal(i), Decimal(j);
    SuffixDecides("PSEUDO_" + vs[i].rule, d, "PSEUDO_" + vs[j].rule, e);
    SuffixDecides("PSEUDO_" + vs[j].rule, e, "PSEUDO_" + vs[i].rule, d);
    var s := Inner(vs, i);
    assert s[|s| - |d|..] == d && s[|s| - |e|..] == e;
  }

  lemma {:induction false} UndoKeeps(t: Tokens, vs: seq<Violation>, k: nat)
    requires k < |vs| && Clean(vs) && Sound(t, vs)
    ensures var u := Undo(t, Inner(vs, k), vs[k].Original());
            Sound(u, vs) && Expand(u, vs) == Expand(t, vs) && Ids(u) <= Ids(t) &&
            (AllFlat(t) ==> AllFlat(u) && k !in Ids(u))
    decreases t
  {
    var o, inner := vs[k].Original(), Inner(vs, k);
    match t
    case Nil =>
    case Lit(c, r) =>
      UndoKeeps(r, vs, k);
    case Tag(j, b, r) =>
      UndoKeeps(r, vs, k);
      if Flat(b) {
        FlatExpands(b, vs);
        UndoFlat(b, inner, o);
        if Render(b) == inner {
          InnerInjective(vs, j, k);
          LitsSound(o, Undo(r, inner, o), vs);
          LitsAddNoTag(o, Undo(r, inner, o));
        }
      } else {
        UndoKeeps(b, vs, k);
      }
  }

  lemma {:induction false} UndoFlat(b: Tokens, inner: string, o: string)
    requires Flat(b)
    ensures Undo(b, inner, o) == b
  {
    if b.Lit? {
      UndoFlat(b.rest, inner, o);
    }
  }

  /** Some tag can no longer be restored once the tags below `k` have been
      processed: it is below `k` itself, or holds another tag. */
  predicate Stuck(t: Tokens, k: nat) {
    match t
    case Nil => false
    case Lit(_, r) => Stuck(r, k)
    case Tag(j, b, r) => j < k || !Flat(b) || Stuck(r, k)
  }

  lemma {:induction false} NestedIsStuck(t: Tokens, k: nat)
    ensures !AllFlat(t) ==> Stuck(t, k)
  {
    match t
    case Nil =>
    case Lit(_, r) => NestedIsStuck(r, k);
    case Tag(_, b, r) => NestedIsStuck(r, k);
  }

  lemma {:induction false} StuckLits(s: string, t: Tokens, k: nat)
    ensures Stuck(Lits(s, t), k) == Stuck(t, k)
  {
    if s != "" {
      StuckLits(s[1..], t, k);
    }
  }

  /** Restoring in insertion order meets the outer placeholder first, while its
      body is still broken. */
  lemma {:induction false} StuckStays(t: Tokens, vs: seq<Violation>, k: nat, m: nat)
    requires m <= k < |vs| && Clean(vs) && Sound(t, vs) && Stuck(t, m)
    requires forall j :: j in Ids(t) ==> m <= j ==> k <= j
    ensures Stuck(Undo(t, Inner(vs, k), vs[k].Original()), k + 1)
    decreases t
  {
    IdsNest(t);
    var o, inner := vs[k].Original(), Inner(vs, k);
    match t
    case Nil =>
    case Lit(c, r) =>
      StuckStays(r, vs, k, m);
    case Tag(j, b, r) =>
      if Stuck(r, m) {
        StuckStays(r, vs, k, m);
        StuckLits(o, Undo(r, inner, o), k + 1);
      } else if Flat(b) && Render(b) == inner {
        FlatExpands(b, vs);
        InnerInjective(vs, j, k);
      } else if j > k {
        UndoNested(b, vs, k);
      }
  }

  lemma {:induction false} UndoNested(b: Tokens, vs: seq<Violation>, k: nat)
    requires k < |vs| && Sound(b, vs) && !Flat(b) && forall i :: i in Ids(b) ==> k < i
    ensures !Flat(Undo(b, Inner(vs, k), vs[k].Original()))
  {
    IdsNest(b);
    if b.Lit? {
      UndoNested(b.rest, vs, k);
    } else if Flat(b.body) && Render(b.body) == Inner(vs, k) {
      FlatExpands(b.body, vs);
      InnerInjective(vs, b.id, k);
    }
  }

  lemma {:induction false} StuckShows(t: Tokens, k: nat)
    requires Stuck(t, k)
    ensures !BracketFree(Render(t))
  {
    if t.Lit? {
      StuckShows(t.rest, k);
      var i :| 0 <= i < |Render(t.rest)| && (Render(t.rest)[i] == '[' || Render(t.rest)[i] == ']');
      assert Render(t)[i + 1] == Render(t.rest)[i];
    } else {
      assert Render(t)[0] == '[';
    }
  }

  // ---- whole runs

  /** The violations whose original was found and replaced, oldest first. */
  function Applied(text: string, vs: seq<Violation>, n: nat): seq<nat>
    requires n <= |vs|
  {
    if n == 0 then []
    else if Skipped(Run(text, vs, n - 1).text, vs[n - 1].Original()) then Applied(text, vs, n - 1)
    else Applied(text, vs, n - 1) + [n - 1]
  }

  function Entries(vs: seq<Violation>, ids: seq<nat>): (m: Mapping)
    requires forall k :: 0 <= k < |ids| ==> ids[k] < |vs|
    ensures |m| == |ids|
    ensures forall k :: 0 <= k < |m| ==> m[k] == Pair(Placeholder(vs, ids[k]), vs[ids[k]].Original())
  {
    if ids == [] then []
    else [Pair(Placeholder(vs, ids[0]), vs[ids[0]].Original())] + Entries(vs, ids[1..])
  }

  function Toks(text: string, vs: seq<Violation>, n: nat): Tokens
    requires n <= |vs|
  {
    if n == 0 then Lits(text, Nil)
    else
      var t := Toks(text, vs, n - 1);
      var o := vs[n - 1].Original();
      if Skipped(Run(text, vs, n - 1).text, o) then t else Subst(t, o, n - 1, Inner(vs, n - 1))
  }

  lemma {:induction false} AssignFresh(m: Mapping, key: string, value: string)
    requires forall k :: 0 <= k < |m| ==> m[k].placeholder != key
    ensures Assign(m, key, value) == m + [Pair(key, value)]
  {
    if m != [] {
      AssignFresh(m[1..], key, value);
    }
  }

  predicate Ascending(ids: seq<nat>, n: nat) {
    && (forall k :: 0 <= k < |ids| ==> ids[k] < n)
    && (forall a, b :: 0 <= a < b < |ids| ==> ids[a] < ids[b])
  }

  lemma {:induction false} AppliedAscends(text: string, vs: seq<Violation>, n: nat)
    requires n <= |vs|
    ensures Ascending(Applied(text, vs, n), n)
  {
    if n > 0 {
      AppliedAscends(text, vs, n - 1);
      AscendingAppend(Applied(text, vs, n - 1), n - 1);
    }
  }

  lemma {:induction false} AscendingAppend(ids: seq<nat>, i: nat)
    requires Ascending(ids, i)
    ensures Ascending(ids + [i], i + 1) && Ascending(ids, i + 1)
  {}

  /** The next placeholder is not a key of the mapping yet, so it goes last. */
  lemma {:induction false} NewEntry(vs: seq<Violation>, ids: seq<nat>, i: nat)
    requires i < |vs| && Ascending(ids, i)
    ensures Assign(Entries(vs, ids), Placeholder(vs, i), vs[i].Original()) ==
            Entries(vs, ids) + [Pair(Placeholder(vs, i), vs[i].Original())]
    ensures Entries(vs, ids) + [Pair(Placeholder(vs, i), vs[i].Original())] == Entries(vs, ids + [i])
  {
    forall k | 0 <= k < |ids| ensures Placeholder(vs, ids[k]) != Placeholder(vs, i) {
      if Placeholder(vs, ids[k]) == Placeholder(vs, i) {
        assert forall j :: 0 <= j < |vs| ==> Placeholder(vs, j)[1..|Placeholder(vs, j)| - 1] == Inner(vs, j);
        InnerInjective(vs, ids[k], i);
      }
    }
    AssignFresh(Entries(vs, ids), Placeholder(vs, i), vs[i].Original());
  }

  lemma {:induction false} AppliedAreKnown(text: string, vs: seq<Violation>, n: nat)
    requires n <= |vs|
    ensures Ascending(Applied(text, vs, n), |vs|)
  {
    AppliedAscends(text, vs, n);
  }

  /** The mapping lists exactly the applied violations, in order. */
  lemma {:induction false} MappingIsApplied(text: string, vs: seq<Violation>, n: nat)
    requires n <= |vs|
    ensures Ascending(Applied(text, vs, n), |vs|)
    ensures Run(text, vs, n).mapping == Entries(vs, Applied(text, vs, n))
  {
    AppliedAreKnown(text, vs, n);
    if n > 0 {
      var ids := Applied(text, vs, n - 1);
      MappingIsApplied(text, vs, n - 1);
      AppliedAscends(text, vs, n - 1);
      MappingStep(Run(text, vs, n - 1), vs, ids, n - 1);
      assert Run(text, vs, n) == Step(Run(text, vs, n - 1), vs, n - 1);
    }
  }

  lemma {:induction false} MappingStep(out: Outcome, vs: seq<Violation>, ids: seq<nat>, i: nat)
    requires i < |vs| && Ascending(ids, i) && out.mapping == Entries(vs, ids)
    ensures Step(out, vs, i).mapping ==
            if Skipped(out.text, vs[i].Original()) then out.mapping
            else Entries(vs, ids) + [Pair(Placeholder(vs, i), vs[i].Original())]
    ensures Entries(vs, ids) + [Pair(Placeholder(vs, i), vs[i].Original())] == Entries(vs, ids + [i])
  {
    NewEntry(vs, ids, i);
  }

  /** One detection: its full text, or without one the short text, is replaced
      everywhere by a placeholder that names rule and position, and the pair goes
      last in the mapping; an empty or absent text is passed over. */
  lemma {:induction false} NextDetection(text: string, vs: seq<Violation>, n: nat)
    requires n < |vs|
    ensures Run(text, vs, 0) == Outcome(text, [])
    ensures var o := if vs[n].full != "" then vs[n].full else vs[n].short;
            var placeholder := "[PSEUDO_" + vs[n].rule + "_" + Decimal(n) + "]";
            var out := Run(text, vs, n);
            Run(text, vs, n + 1) ==
            if o == "" || !Occurs(Exactly, o, out.text) then out
            else Outcome(ReplaceAll(Exactly, out.text, o, placeholder), out.mapping + [Pair(placeholder, o)])
  {
    var ids := Applied(text, vs, n);
    MappingIsApplied(text, vs, n);
    AppliedAscends(text, vs, n);
    MappingStep(Run(text, vs, n), vs, ids, n);
    PlaceholderText(vs, n);
  }

  lemma {:induction false} PlaceholderText(vs: seq<Violation>, i: nat)
    requires i < |vs|
    ensures Placeholder(vs, i) == "[PSEUDO_" + vs[i].rule + "_" + Decimal(i) + "]"
  {
    var rule, number := vs[i].rule, Decimal(i);
    assert "[" + ("PSEUDO_" + rule + "_" + number) + "]" == "[PSEUDO_" + rule + "_" + number + "]";
  }

  /** The tokens `t` stand for the string `s`, in which the violations `ids`
      have been replaced in `text`. */
  ghost predicate Accounts(t: Tokens, text: string, vs: seq<Violation>, s: string, ids: seq<nat>) {
    && Render(t) == s && Sound(t, vs) && Expand(t, vs) == text
    && (forall j :: j in Ids(t) <==> j in ids)
  }

  lemma {:induction false} AccountsStep(t: Tokens, text: string, vs: seq<Violation>, s: string, ids: seq<nat>, i: nat)
    requires i < |vs| && Clean(vs) && Accounts(t, text, vs, s, ids) && Ascending(ids, i)
    requires !Skipped(s, vs[i].Original())
    ensures Accounts(Subst(t, vs[i].Original(), i, Inner(vs, i)), text, vs,
                     ReplaceAll(Exactly, s, vs[i].Original(), Placeholder(vs, i)), ids + [i])
  {
    forall j | j in Ids(t) ensures j < i {
      assert j in ids;
    }
    SubstKeeps(t, vs, i);
    SubstWhole(t, vs[i].Original(), i, Inner(vs, i));
    var u := Subst(t, vs[i].Original(), i, Inner(vs, i));
    forall j ensures j in Ids(u) <==> j in ids + [i] {
      assert j in Ids(u) ==> j in Ids(t) || j == i;
      assert j in ids + [i] <==> j in ids || j == i;
    }
  }

  lemma {:induction false} RunTokens(text: string, vs: seq<Violation>, n: nat)
    requires n <= |vs| && BracketFree(text) && Clean(vs)
    ensures Accounts(Toks(text, vs, n), text, vs, Run(text, vs, n).text, Applied(text, vs, n))
  {
    if n == 0 {
      RenderLits(text, Nil);
      LitsAddNoTag(text, Nil);
      LitsSound(text, Nil, vs);
      assert text + Render(Nil) == text;
    } else {
      RunTokens(text, vs, n - 1);
      AppliedAscends(text, vs, n - 1);
      if !Skipped(Run(text, vs, n - 1).text, vs[n - 1].Original()) {
        AccountsStep(Toks(text, vs, n - 1), text, vs, Run(text, vs, n - 1).text, Applied(text, vs, n - 1), n - 1);
      }
    }
  }

  lemma {:induction false} SubstWhole(t: Tokens, o: string, i: nat, inner: string)
    requires o != "" && BracketFree(o) && Occurs(Exactly, o, Render(t))
    ensures Render(Subst(t, o, i, inner)) == ReplaceAll(Exactly, Render(t), o, "[" + inner + "]")
    ensures i in Ids(Subst(t, o, i, inner))
  {
    assert Render(t) + "" == Render(t);
    SubstRenders(t, o, i, inner, "");
    NothingIn(o);
    HasIsOccurs(t, o, "");
    SubstInserts(t, o, i, inner);
  }

  /** No original found later occurs in a placeholder inserted earlier. A caller
      can read this off the mapping before restoring. */
  predicate NoneInside(m: Mapping) {
    forall a, b :: 0 <= a < b < |m| ==> !Occurs(Exactly, m[b].original, m[a].placeholder)
  }

  lemma {:induction false} FlatStep(t: Tokens, vs: seq<Violation>, ids: seq<nat>, i: nat)
    requires i < |vs| && Clean(vs) && vs[i].Original() != "" && Sound(t, vs) && Ascending(ids, i)
    requires forall j :: j in Ids(t) <==> j in ids
    requires AllFlat(t) <==> NoneInside(Entries(vs, ids))
    ensures AllFlat(Subst(t, vs[i].Original(), i, Inner(vs, i))) <==>
            NoneInside(Entries(vs, ids) + [Pair(Placeholder(vs, i), vs[i].Original())])
  {
    var o, m := vs[i].Original(), Entries(vs, ids);
    SubstFlatness(t, vs, o, i, Inner(vs, i));
    NewestInside(m, Pair(Placeholder(vs, i), o));
    IdsKnown(t, vs);
    forall j | j in Ids(t)
      ensures Occurs(Exactly, o, Inner(vs, j)) <==> Occurs(Exactly, o, Placeholder(vs, j))
    {
      OccursInPlaceholder(o, Inner(vs, j));
    }
    forall a | 0 <= a < |m| ensures m[a].placeholder == Placeholder(vs, ids[a]) && ids[a] in Ids(t) {
      assert ids[a] in ids;
    }
  }

  lemma {:induction false} FlatIffNoneInside(text: string, vs: seq<Violation>, n: nat)
    requires n <= |vs| && BracketFree(text) && Clean(vs)
    ensures AllFlat(Toks(text, vs, n)) <==> NoneInside(Run(text, vs, n).mapping)
  {
    if n == 0 {
      LitsAddNoTag(text, Nil);
    } else {
      FlatIffNoneInside(text, vs, n - 1);
      if !Skipped(Run(text, vs, n - 1).text, vs[n - 1].Original()) {
        var ids := Applied(text, vs, n - 1);
        MappingIsApplied(text, vs, n - 1);
        RunTokens(text, vs, n - 1);
        AppliedAscends(text, vs, n - 1);
        FlatStep(Toks(text, vs, n - 1), vs, ids, n - 1);
        NewEntry(vs, ids, n - 1);
      }
    }
  }

  /** Adding the newest entry adds only the pairs in which it is the later one. */
  lemma {:induction false} NewestInside(m: Mapping, p: Pair)
    ensures NoneInside(m + [p]) <==>
            NoneInside(m) && forall a :: 0 <= a < |m| ==> !Occurs(Exactly, p.original, m[a].placeholder)
  {
    var m' := m + [p];
    assert m'[|m|] == p && forall a :: 0 <= a < |m| ==> m'[a] == m[a];
    if NoneInside(m') {
      forall a | 0 <= a < |m| ensures !Occurs(Exactly, p.original, m[a].placeholder) {
        assert !Occurs(Exactly, m'[|m|].original, m'[a].placeholder);
      }
      forall a, b | 0 <= a < b < |m| ensures !Occurs(Exactly, m[b].original, m[a].placeholder) {
        assert !Occurs(Exactly, m'[b].original, m'[a].placeholder);
      }
    }
  }

  function UndoAll(t: Tokens, vs: seq<Violation>, ids: seq<nat>): Tokens
    requires forall k :: 0 <= k < |ids| ==> ids[k] < |vs|
    decreases ids
  {
    if ids == [] then t
    else UndoAll(Undo(t, Inner(vs, ids[0]), vs[ids[0]].Original()), vs, ids[1..])
  }

  lemma {:induction false} RestoreTokens(t: Tokens, vs: seq<Violation>, ids: seq<nat>)
    requires (forall k :: 0 <= k < |ids| ==> ids[k] < |vs|) && Clean(vs) && Sound(t, vs)
    ensures Restore(Render(t), Entries(vs, ids)) == Render(UndoAll(t, vs, ids))
    ensures Expand(UndoAll(t, vs, ids), vs) == Expand(t, vs)
    decreases ids
  {
    if ids != [] {
      var inner, o := Inner(vs, ids[0]), vs[ids[0]].Original();
      UndoKeeps(t, vs, ids[0]);
      IdsKnown(t, vs);
      InnerBracketFree(vs, ids[0]);
      UndoRenders(t, inner, o, "");
      assert Render(t) + "" == Render(t);
      assert ReplaceAll(Exactly, "", "[" + inner + "]", o) == "";
      assert Entries(vs, ids)[1..] == Entries(vs, ids[1..]);
      assert Render(Undo(t, inner, o)) + "" == Render(Undo(t, inner, o));
      RestoreTokens(Undo(t, inner, o), vs, ids[1..]);
    }
  }

  /** With every body flat, all placeholders are put back. */
  lemma {:induction false} FlatRestores(t: Tokens, vs: seq<Violation>, ids: seq<nat>)
    requires (forall k :: 0 <= k < |ids| ==> ids[k] < |vs|) && Clean(vs) && Sound(t, vs) && AllFlat(t)
    requires forall j :: j in Ids(t) ==> j in ids
    ensures Ids(UndoAll(t, vs, ids)) == {}
    decreases ids
  {
    if ids != [] {
      UndoKeeps(t, vs, ids[0]);
      FlatRestores(Undo(t, Inner(vs, ids[0]), vs[ids[0]].Original()), vs, ids[1..]);
    }
  }

  lemma {:induction false} NoIdsExpands(t: Tokens, vs: seq<Violation>)
    requires Ids(t) == {}
    ensures Render(t) == Expand(t, vs)
  {
    IdsNest(t);
    if t.Lit? {
      NoIdsExpands(t.rest, vs);
    }
  }

  /** A nested placeholder leaves brackets in the result. */
  lemma {:induction false} StuckNeverRestored(t: Tokens, vs: seq<Violation>, ids: seq<nat>, m: nat)
    requires Ascending(ids, |vs|) && Clean(vs) && Sound(t, vs) && Stuck(t, m)
    requires forall k :: 0 <= k < |ids| ==> m <= ids[k]
    requires forall j :: j in Ids(t) ==> m <= j ==> j in ids
    ensures !BracketFree(Render(UndoAll(t, vs, ids)))
    decreases ids
  {
    if ids == [] {
      StuckShows(t, m);
    } else {
      UndoKeeps(t, vs, ids[0]);
      StuckStays(t, vs, ids[0], m);
      StuckNeverRestored(Undo(t, Inner(vs, ids[0]), vs[ids[0]].Original()), vs, ids[1..], ids[0] + 1);
    }
  }

  lemma {:induction false} NestedNeverRestored(t: Tokens, vs: seq<Violation>, ids: seq<nat>)
    requires Ascending(ids, |vs|) && Clean(vs) && Sound(t, vs)
    requires forall j :: j in Ids(t) ==> j in ids
    ensures !AllFlat(t) ==> !BracketFree(Render(UndoAll(t, vs, ids)))
  {
    NestedIsStuck(t, 0);
    if Stuck(t, 0) {
      StuckNeverRestored(t, vs, ids, 0);
    }
  }

  /** Pseudonymizing and restoring is the identity exactly when no later
      original occurs in an earlier placeholder. */
  lemma {:induction false} RoundTrip(text: string, vs: seq<Violation>)
    requires BracketFree(text) && Clean(vs)
    ensures var r := Run(text, vs, |vs|);
            Restore(r.text, r.mapping) == text <==> NoneInside(r.mapping)
  {
    var n := |vs|;
    var t, ids := Toks(text, vs, n), Applied(text, vs, n);
    RunTokens(text, vs, n);
    MappingIsApplied(text, vs, n);
    AppliedAscends(text, vs, n);
    FlatIffNoneInside(text, vs, n);
    RestoreTokens(t, vs, ids);
    if AllFlat(t) {
      FlatRestores(t, vs, ids);
      NoIdsExpands(UndoAll(t, vs, ids), vs);
    }
    NestedNeverRestored(t, vs, ids);
  }

  /** A detection is a piece of the text. */
  predicate DetectedIn(vs: seq<Violation>, text: string) {
    forall i :: 0 <= i < |vs| ==> BracketFree(vs[i].rule) && Occurs(Exactly, vs[i].Original(), text)
  }

  lemma {:induction false} PieceIsBracketFree(o: string, text: string)
    requires BracketFree(text) && Occurs(Exactly, o, text)
    ensures BracketFree(o)
  {
    var i: nat :| i <= |text| && MatchesAt(Exactly, o, text, i);
    forall k | 0 <= k < |o| ensures o[k] != '[' && o[k] != ']' {
      MatchChar(Exactly, o, text, i, k);
    }
  }

  /** For detections made in the text itself nothing else is needed. */
  lemma {:induction false} RoundTripOfDetections(text: string, vs: seq<Violation>)
    requires BracketFree(text) && DetectedIn(vs, text)
    ensures var r := Run(text, vs, |vs|);
            Restore(r.text, r.mapping) == text <==> NoneInside(r.mapping)
  {
    forall i | 0 <= i < |vs| ensures BracketFree(vs[i].Original()) {
      PieceIsBracketFree(vs[i].Original(), text);
    }
    RoundTrip(text, vs);
  }

  /** The hypothesis a deployment can check once for its rules. */
  lemma {:induction false} RoundTripForRules(text: string, vs: seq<Violation>)
    requires BracketFree(text) && Clean(vs)
    requires forall i, j :: 0 <= i < |vs| && 0 <= j < |vs| && vs[i].Original() != "" ==>
               !Occurs(Exactly, vs[i].Original(), Placeholder(vs, j))
    ensures var r := Run(text, vs, |vs|); Restore(r.text, r.mapping) == text
  {
    RoundTrip(text, vs);
    MappingIsApplied(text, vs, |vs|);
    AppliedFound(text, vs, |vs|);
  }

  lemma {:induction false} AppliedFound(text: string, vs: seq<Violation>, n: nat)
    requires n <= |vs|
    ensures forall k :: 0 <= k < |Applied(text, vs, n)| ==>
              Applied(text, vs, n)[k] < |vs| && vs[Applied(text, vs, n)[k]].Original() != ""
  {
    if n > 0 {
      AppliedFound(text, vs, n - 1);
    }
  }

  function Detection(name: string, rule: string, full: string): Violation {
    Violation(name, rule, full, "", ContentFilter.Redact)
  }

  /** The condition is needed: here a second detection is the letter S, which
      the first placeholder contains. */
  lemma {:induction false} RoundTripCanFail()
    ensures var vs := [Detection("n", "N", "a"), Detection("m", "M", "S")];
            var r := Run("a", vs, 2);
            Clean(vs) && Restore(r.text, r.mapping) != "a"
  {
    LetterInside([Detection("n", "N", "a"), Detection("m", "M", "S")]);
  }

  lemma {:induction false} LetterInside(vs: seq<Violation>)
    requires |vs| == 2 && Clean(vs) && vs[0].Original() == "a" && vs[1].Original() == "S"
    ensures var r := Run("a", vs, 2); Restore(r.text, r.mapping) != "a"
  {
    BothApplied(vs);
    var m := Run("a", vs, 2).mapping;
    assert !NoneInside(m) by {
      assert Occurs(Exactly, m[1].original, m[0].placeholder);
    }
    RoundTrip("a", vs);
  }

  lemma {:induction false} BothApplied(vs: seq<Violation>)
    requires |vs| == 2 && vs[0].Original() == "a" && vs[1].Original() == "S"
    ensures Run("a", vs, 2).mapping == [Pair(Placeholder(vs, 0), "a"), Pair(Placeholder(vs, 1), "S")]
    ensures Occurs(Exactly, "S", Placeholder(vs, 0))
  {
    var p := Placeholder(vs, 0);
    assert p[2] == 'S';
    assert MatchesAt(Exactly, "S", p, 2);
    WholeTextReplaced(vs);
    NewEntry(vs, [0], 1);
    assert Entries(vs, [0]) == [Pair(p, "a")];
  }

  lemma {:induction false} WholeTextReplaced(vs: seq<Violation>)
    requires |vs| == 2 && vs[0].Original() == "a"
    ensures Run("a", vs, 1) == Outcome(Placeholder(vs, 0), [Pair(Placeholder(vs, 0), "a")])
  {
    assert MatchesAt(Exactly, "a", "a", 0);
    assert Run("a", vs, 0) == Outcome("a", []);
    assert ReplaceAll(Exactly, "a", "a", Placeholder(vs, 0)) == Placeholder(vs, 0);
  }
}
