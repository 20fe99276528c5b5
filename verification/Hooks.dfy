/** The tier-1 denylist of the agent hooks and the order of the policy tiers. */
module Hooks {
  import opened Options
  import opened Text

  // ---- glob patterns

  datatype Piece = AnyRun | AnyOne | Char(c: char)

  function PieceOf(c: char): Piece {
    if c == '*' then AnyRun else if c == '?' then AnyOne else Char(c)
  }

  method CompileGlob(pattern: string) returns (parts: seq<Piece>)
    ensures parts == Compiled(pattern)
  {
    parts := [];
    for i := 0 to |pattern|
      invariant parts == Compiled(pattern[..i])
    {
      if pattern[i] == '*' {
        parts := parts + [AnyRun];
      } else if pattern[i] == '?' {
        parts := parts + [AnyOne];
      } else {
        parts := parts + [Char(pattern[i])];
      }
      assert pattern[..i + 1] == pattern[..i] + [pattern[i]];
    }
    assert pattern[..|pattern|] == pattern;
  }

  function Compiled(pattern: string): (parts: seq<Piece>)
    ensures |parts| == |pattern|
    ensures forall i :: 0 <= i < |parts| ==> parts[i] == PieceOf(pattern[i])
  {
    if pattern == "" then [] else [PieceOf(pattern[0])] + Compiled(pattern[1..])
  }

  /** The regular expression: `.` stands for any character but a newline. */
  predicate MatchesFront(fold: char -> char, parts: seq<Piece>, t: string)
    decreases |parts| + |t|
  {
    if parts == [] then true
    else match parts[0]
      case AnyRun =>
        MatchesFront(fold, parts[1..], t) || (t != "" && t[0] != '\n' && MatchesFront(fold, parts, t[1..]))
      case AnyOne => t != "" && t[0] != '\n' && MatchesFront(fold, parts[1..], t[1..])
      case Char(c) => t != "" && fold(t[0]) == fold(c) && MatchesFront(fold, parts[1..], t[1..])
  }

  predicate Found(fold: char -> char, parts: seq<Piece>, t: string) {
    exists i: nat :: i <= |t| && MatchesFront(fold, parts, t[i..])
  }

  predicate GlobSearch(fold: char -> char, pattern: string, text: string) {
    pattern != "" && text != "" && Found(fold, Compiled(pattern), text)
  }

  // ---- the tool input

  /** An object's values in the order of its keys. */
  datatype Json = Str(s: string) | Obj(keys: seq<string>, values: seq<Json>) | Arr(items: seq<Json>) | Scalar

  const SEPARATOR := '\U{001F}'

  function Leaves(j: Json): seq<string>
    decreases j, 0
  {
    match j
    case Str(s) => [s]
    case Obj(_, js) => ItemLeaves(js)
    case Arr(js) => ItemLeaves(js)
    case Scalar => []
  }

  function ItemLeaves(js: seq<Json>): seq<string>
    decreases js
  {
    if js == [] then [] else Leaves(js[0]) + ItemLeaves(js[1..])
  }

  function Join(parts: seq<string>): string {
    if parts == [] then ""
    else if |parts| == 1 then parts[0]
    else parts[0] + [SEPARATOR] + Join(parts[1..])
  }

  /** An absent or empty payload has no text. */
  function Flattened(input: Json): string {
    if input == Scalar || (input.Obj? && input.values == []) then "" else Join(Leaves(input))
  }

  lemma {:induction false} ItemLeavesAppend(js: seq<Json>, j: Json)
    ensures ItemLeaves(js + [j]) == ItemLeaves(js) + Leaves(j)
  {
    if js == [] {
      assert [j][1..] == [];
    } else {
      ItemLeavesAppend(js[1..], j);
      assert (js + [j])[1..] == js[1..] + [j];
    }
  }

  /** The walk, which appends each string leaf to `before`. */
  method Walk(node: Json, before: seq<string>) returns (parts: seq<string>)
    ensures parts == before + Leaves(node)
    decreases node
  {
    parts := before;
    match node
    case Str(s) => parts := parts + [s];
    case Scalar =>
    case Obj(_, js) =>
      for i := 0 to |js|
        invariant parts == before + ItemLeaves(js[..i])
      {
        parts := Walk(js[i], parts);
        ItemLeavesAppend(js[..i], js[i]);
        assert js[..i + 1] == js[..i] + [js[i]];
      }
      assert js[..|js|] == js;
    case Arr(js) =>
      for i := 0 to |js|
        invariant parts == before + ItemLeaves(js[..i])
      {
        parts := Walk(js[i], parts);
        ItemLeavesAppend(js[..i], js[i]);
        assert js[..i + 1] == js[..i] + [js[i]];
      }
      assert js[..|js|] == js;
  }

  method FlattenToolInput(input: Json) returns (text: string)
    ensures text == Flattened(input)
  {
    if input == Scalar || (input.Obj? && input.values == []) {
      return "";
    }
    var parts := Walk(input, []);
    assert parts == Leaves(input);
    text := Join(parts);
  }

  /** A string leaf at any depth. */
  predicate HasLeaf(j: Json, s: string)
    decreases j
  {
    match j
    case Str(t) => s == t
    case Obj(_, js) => exists i :: 0 <= i < |js| && HasLeaf(js[i], s)
    case Arr(js) => exists i :: 0 <= i < |js| && HasLeaf(js[i], s)
    case Scalar => false
  }

  // ---- the evaluation

  datatype Entry = Entry(pattern: string, builtin: bool)
  datatype Decision = Allow | Deny | Ask
  datatype Tier = Tier1 | HookRule | Tier2 | Default
  datatype Evaluation = Evaluation(decision: Decision, tier: Tier, degraded: bool)

  datatype Rule = Rule(decision: Decision, applies: string -> bool)

  /** Tier 2's outcome: no policy resolver, a timeout or error, or the action of
      the content policy. */
  datatype Action = ActAllow | ActFlag | ActRedact | ActBlock | ActOther
  datatype Remote = NoResolver | Unavailable | Verdict(action: Action, degraded: bool)
  datatype Config = Config(remoteEnabled: bool, failClosed: bool)

  function FirstMatch(fold: char -> char, entries: seq<Entry>, text: string): Option<Entry> {
    if text == "" || entries == [] then None
    else if GlobSearch(fold, entries[0].pattern, text) then Some(entries[0])
    else FirstMatch(fold, entries[1..], text)
  }

  function Severity(d: Decision): nat {
    match d case Allow => 0 case Ask => 1 case Deny => 2
  }

  /** The decision of the matching rules. Priority and id, left out, only pick
      which of the most severe rules is named in the answer. */
  function Winner(rules: seq<Rule>, text: string): Option<Decision> {
    if rules == [] then None
    else
      var rest := Winner(rules[1..], text);
      if !rules[0].applies(text) then rest
      else if rest.Some? && Severity(rest.value) > Severity(rules[0].decision) then rest
      else Some(rules[0].decision)
  }

  function RemoteEvaluation(config: Config, remote: Remote): Evaluation {
    match remote
    case NoResolver => Evaluation(Allow, Default, false)
    case Unavailable => Evaluation(if config.failClosed then Deny else Allow, Tier2, true)
    case Verdict(a, degraded) =>
      Evaluation(match a
                 case ActAllow => Allow
                 case ActFlag => Ask
                 case ActRedact => Ask
                 case ActBlock => Deny
                 case ActOther => Allow, Tier2, degraded)
  }

  function Evaluate(fold: char -> char, input: Json, denylist: seq<Entry>, rules: seq<Rule>,
                    config: Config, engine: bool, remote: Remote): Evaluation
  {
    var text := Flattened(input);
    if FirstMatch(fold, denylist, text).Some? then Evaluation(Deny, Tier1, false)
    else if Winner(rules, text).Some? then Evaluation(Winner(rules, text).value, HookRule, false)
    else if config.remoteEnabled && engine then RemoteEvaluation(config, remote)
    else Evaluation(Allow, Default, false)
  }

  // ---- a match in one leaf is a match in the flattened text

  lemma {:induction false} FrontExtends(fold: char -> char, parts: seq<Piece>, t: string, more: string)
    requires MatchesFront(fold, parts, t)
    ensures MatchesFront(fold, parts, t + more)
    decreases |parts| + |t|
  {
    if parts != [] {
      if t != "" {
        assert (t + more)[1..] == t[1..] + more;
      }
      match parts[0]
      case AnyRun =>
        if MatchesFront(fold, parts[1..], t) {
          FrontExtends(fold, parts[1..], t, more);
        } else {
          FrontExtends(fold, parts, t[1..], more);
        }
      case AnyOne => FrontExtends(fold, parts[1..], t[1..], more);
      case Char(_) => FrontExtends(fold, parts[1..], t[1..], more);
    }
  }

  lemma {:induction false} FoundWithin(fold: char -> char, parts: seq<Piece>, a: string, t: string, b: string)
    requires Found(fold, parts, t)
    ensures Found(fold, parts, a + t + b)
  {
    var i: nat :| i <= |t| && MatchesFront(fold, parts, t[i..]);
    FrontExtends(fold, parts, t[i..], b);
    assert (a + t + b)[|a| + i..] == t[i..] + b;
  }

  lemma {:induction false} JoinContains(parts: seq<string>, k: nat) returns (a: string, b: string)
    requires k < |parts|
    ensures Join(parts) == a + parts[k] + b
  {
    if |parts| == 1 {
      a, b := "", "";
    } else if k == 0 {
      a, b := "", [SEPARATOR] + Join(parts[1..]);
    } else {
      a, b := JoinContains(parts[1..], k - 1);
      a := parts[0] + [SEPARATOR] + a;
    }
  }

  lemma {:induction false} LeafIsListed(j: Json, s: string)
    requires HasLeaf(j, s)
    ensures s in Leaves(j)
    decreases j
  {
    match j
    case Str(_) =>
    case Obj(_, js) =>
      var i :| 0 <= i < |js| && HasLeaf(js[i], s);
      LeafIsListed(js[i], s);
      ItemHolds(js, i, s);
    case Arr(js) =>
      var i :| 0 <= i < |js| && HasLeaf(js[i], s);
      LeafIsListed(js[i], s);
      ItemHolds(js, i, s);
    case Scalar =>
  }

  lemma {:induction false} ItemHolds(js: seq<Json>, i: nat, s: string)
    requires i < |js| && s in Leaves(js[i])
    ensures s in ItemLeaves(js)
  {
    if i > 0 {
      ItemHolds(js[1..], i - 1, s);
    }
  }

  lemma {:induction false} ListedIsLeaf(j: Json, s: string)
    requires s in Leaves(j)
    ensures HasLeaf(j, s)
    decreases j
  {
    match j
    case Str(_) =>
    case Obj(_, js) =>
      var i := ItemHolding(js, s);
      ListedIsLeaf(js[i], s);
    case Arr(js) =>
      var i := ItemHolding(js, s);
      ListedIsLeaf(js[i], s);
    case Scalar =>
  }

  lemma {:induction false} ItemHolding(js: seq<Json>, s: string) returns (i: nat)
    requires s in ItemLeaves(js)
    ensures i < |js| && s in Leaves(js[i])
  {
    if s in Leaves(js[0]) {
      i := 0;
    } else {
      i := ItemHolding(js[1..], s);
      i := i + 1;
    }
  }

  /** A leaf that matches makes the whole payload match. */
  lemma {:induction false} LeafMatchIsTextMatch(fold: char -> char, pattern: string, input: Json, leaf: string)
    requires HasLeaf(input, leaf) && GlobSearch(fold, pattern, leaf)
    ensures GlobSearch(fold, pattern, Flattened(input))
  {
    LeafIsListed(input, leaf);
    var k :| 0 <= k < |Leaves(input)| && Leaves(input)[k] == leaf;
    var a, b := JoinContains(Leaves(input), k);
    FoundWithin(fold, Compiled(pattern), a, leaf, b);
  }

  lemma {:induction false} FirstMatchFinds(fold: char -> char, entries: seq<Entry>, text: string)
    ensures FirstMatch(fold, entries, text).Some? <==> exists e :: e in entries && GlobSearch(fold, e.pattern, text)
    ensures FirstMatch(fold, entries, text).Some? ==> FirstMatch(fold, entries, text).value in entries
  {
    if entries != [] {
      FirstMatchFinds(fold, entries[1..], text);
      assert entries == [entries[0]] + entries[1..];
    }
  }

  /** The first entry that matches is reported. */
  lemma {:induction false} FirstMatchIsFirst(fold: char -> char, entries: seq<Entry>, text: string, i: nat)
    requires i < |entries| && GlobSearch(fold, entries[i].pattern, text)
    requires forall j :: 0 <= j < i ==> !GlobSearch(fold, entries[j].pattern, text)
    ensures FirstMatch(fold, entries, text) == Some(entries[i])
  {
    if i > 0 {
      assert !GlobSearch(fold, entries[0].pattern, text);
      FirstMatchIsFirst(fold, entries[1..], text, i - 1);
    }
  }

  /** A protected path anywhere in the input is denied, whatever the rules, the
      configuration and the remote evaluation say; and nothing else reaches
      that verdict's tier. */
  lemma {:induction false} DenylistIsAbsolute(fold: char -> char, input: Json, denylist: seq<Entry>, rules: seq<Rule>,
                           config: Config, engine: bool, remote: Remote)
    ensures (exists e, leaf :: e in denylist && HasLeaf(input, leaf) && GlobSearch(fold, e.pattern, leaf)) ==>
              Evaluate(fold, input, denylist, rules, config, engine, remote) == Evaluation(Deny, Tier1, false)
    ensures Evaluate(fold, input, denylist, rules, config, engine, remote).tier == Tier1 <==>
              exists e :: e in denylist && GlobSearch(fold, e.pattern, Flattened(input))
  {
    FirstMatchFinds(fold, denylist, Flattened(input));
    if e, leaf :| e in denylist && HasLeaf(input, leaf) && GlobSearch(fold, e.pattern, leaf) {
      LeafMatchIsTextMatch(fold, e.pattern, input, leaf);
    }
  }

  /** Among the rules that apply the most severe decision wins, so no allow rule
      overrides a deny rule. */
  lemma {:induction false} WinnerIsMostSevere(rules: seq<Rule>, text: string)
    ensures Winner(rules, text).None? <==> forall r :: r in rules ==> !r.applies(text)
    ensures Winner(rules, text).Some? ==>
              && (exists r :: r in rules && r.applies(text) && r.decision == Winner(rules, text).value)
              && (forall r :: r in rules && r.applies(text) ==>
                    Severity(r.decision) <= Severity(Winner(rules, text).value))
  {
    if rules != [] {
      WinnerIsMostSevere(rules[1..], text);
      assert rules == [rules[0]] + rules[1..];
    }
  }

  predicate Listed(fold: char -> char, denylist: seq<Entry>, text: string) {
    exists e :: e in denylist && GlobSearch(fold, e.pattern, text)
  }

  ghost predicate AnyApplies(rules: seq<Rule>, text: string) {
    exists r :: r in rules && r.applies(text)
  }

  ghost predicate AnySays(rules: seq<Rule>, text: string, d: Decision) {
    exists r :: r in rules && r.applies(text) && r.decision == d
  }

  /** Remote evaluation takes place and blocks, or cannot and has to. */
  predicate RemoteDenies(config: Config, engine: bool, remote: Remote) {
    && config.remoteEnabled && engine
    && match remote
       case NoResolver => false
       case Unavailable => config.failClosed
       case Verdict(a, _) => a == ActBlock
  }

  predicate RemoteAsks(config: Config, engine: bool, remote: Remote) {
    config.remoteEnabled && engine && remote.Verdict? && (remote.action == ActFlag || remote.action == ActRedact)
  }

  /** Why a tool call is denied, and what it takes to be allowed: a rule decides
      whenever one applies, the remote evaluation only when none does. */
  lemma {:induction false} VerdictIff(fold: char -> char, input: Json, denylist: seq<Entry>, rules: seq<Rule>,
                           config: Config, engine: bool, remote: Remote)
    ensures var text := Flattened(input);
            var d := Evaluate(fold, input, denylist, rules, config, engine, remote).decision;
            && (d == Deny <==>
                  Listed(fold, denylist, text) || AnySays(rules, text, Deny) ||
                  (!AnyApplies(rules, text) && RemoteDenies(config, engine, remote)))
            && (d == Allow <==>
                  !Listed(fold, denylist, text) && !AnySays(rules, text, Deny) && !AnySays(rules, text, Ask) &&
                  (AnyApplies(rules, text) ||
                     !(RemoteDenies(config, engine, remote) || RemoteAsks(config, engine, remote))))
  {
    FirstMatchFinds(fold, denylist, Flattened(input));
    WinnerIsMostSevere(rules, Flattened(input));
  }

  /** Which tier answers, and when the answer counts as degraded. */
  lemma {:induction false} TierIff(fold: char -> char, input: Json, denylist: seq<Entry>, rules: seq<Rule>,
                           config: Config, engine: bool, remote: Remote)
    ensures var text, e := Flattened(input), Evaluate(fold, input, denylist, rules, config, engine, remote);
            var asked := !Listed(fold, denylist, text) && !AnyApplies(rules, text) && config.remoteEnabled && engine;
            && (e.tier == Tier1 <==> Listed(fold, denylist, text))
            && (e.tier == HookRule <==> !Listed(fold, denylist, text) && AnyApplies(rules, text))
            && (e.tier == Tier2 <==> asked && !remote.NoResolver?)
            && (e.degraded <==> asked && (remote.Unavailable? || (remote.Verdict? && remote.degraded)))
  {
    FirstMatchFinds(fold, denylist, Flattened(input));
    WinnerIsMostSevere(rules, Flattened(input));
  }

  /** What the regular expression of a piece takes: a run any characters up to a
      line break, a question mark one other than a line break, any other
      character itself after folding. */
  lemma {:induction false} PieceTakes(fold: char -> char, c: char, rest: seq<Piece>, t: string)
    ensures MatchesFront(fold, [], t)
    ensures MatchesFront(fold, [PieceOf(c)] + rest, t) <==>
            if c == '*' then RunTakes(fold, rest, t)
            else t != "" && MatchesFront(fold, rest, t[1..]) && if c == '?' then t[0] != '\n' else fold(t[0]) == fold(c)
  {
    assert ([PieceOf(c)] + rest)[1..] == rest;
    if c == '*' {
      RunTakesSome(fold, rest, t);
    }
  }

  predicate RunTakes(fold: char -> char, rest: seq<Piece>, t: string) {
    exists k: nat :: k <= |t| && '\n' !in t[..k] && MatchesFront(fold, rest, t[k..])
  }

  lemma {:induction false} RunTakesSome(fold: char -> char, rest: seq<Piece>, t: string)
    ensures MatchesFront(fold, [AnyRun] + rest, t) <==> RunTakes(fold, rest, t)
    decreases |t|
  {
    var parts := [AnyRun] + rest;
    assert parts[1..] == rest;
    assert t[0..] == t && t[..0] == "";
    if MatchesFront(fold, rest, t) {
      assert '\n' !in t[..0];
    } else if t != "" {
      RunTakesSome(fold, rest, t[1..]);
      if t[0] != '\n' && RunTakes(fold, rest, t[1..]) {
        var k: nat :| k <= |t[1..]| && '\n' !in t[1..][..k] && MatchesFront(fold, rest, t[1..][k..]);
        assert t[1..][k..] == t[k + 1..] && t[..k + 1] == [t[0]] + t[1..][..k];
      }
      if RunTakes(fold, rest, t) {
        var k: nat :| k <= |t| && '\n' !in t[..k] && MatchesFront(fold, rest, t[k..]);
        assert t[k..] == t[1..][k - 1..] && t[..k] == [t[0]] + t[1..][..k - 1];
      }
    }
  }

  // ---- joining never creates a match of a literal pattern

  predicate Literal(pattern: string) {
    forall i :: 0 <= i < |pattern| ==> pattern[i] != '*' && pattern[i] != '?'
  }

  /** A literal pattern is a substring test. */
  lemma {:induction false} LiteralFront(fold: char -> char, pattern: string, t: string)
    requires Literal(pattern)
    ensures MatchesFront(fold, Compiled(pattern), t) <==> MatchesAt(fold, pattern, t, 0)
    decreases pattern
  {
    if pattern != "" {
      MatchHead(fold, pattern, t);
      assert Compiled(pattern)[1..] == Compiled(pattern[1..]);
      if t != "" {
        LiteralFront(fold, pattern[1..], t[1..]);
      }
    }
  }

  lemma {:induction false} LiteralFound(fold: char -> char, pattern: string, t: string)
    requires Literal(pattern)
    ensures Found(fold, Compiled(pattern), t) <==> Occurs(fold, pattern, t)
  {
    forall i: nat | i <= |t|
      ensures MatchesFront(fold, Compiled(pattern), t[i..]) <==> MatchesAt(fold, pattern, t, i)
    {
      LiteralFront(fold, pattern, t[i..]);
      assert t == t[..i] + t[i..];
      MatchShift(fold, pattern, t[..i], t[i..], i);
    }
  }

  /** The folding keeps the separator apart from the pattern's characters. */
  ghost predicate WithoutSeparator(fold: char -> char, pattern: string) {
    forall i :: 0 <= i < |pattern| ==> fold(pattern[i]) != fold(SEPARATOR)
  }

  lemma {:induction false} OccursBesideSeparator(fold: char -> char, pattern: string, a: string, b: string)
    requires pattern != "" && WithoutSeparator(fold, pattern)
    ensures Occurs(fold, pattern, a + [SEPARATOR] + b) <==> Occurs(fold, pattern, a) || Occurs(fold, pattern, b)
  {
    var s := a + [SEPARATOR] + b;
    if Occurs(fold, pattern, s) {
      var i: nat :| i <= |s| && MatchesAt(fold, pattern, s, i);
      if i > |a| {
        MatchShift(fold, pattern, a + [SEPARATOR], b, i);
        assert MatchesAt(fold, pattern, b, i - |a| - 1);
      } else {
        if i + |pattern| > |a| {
          MatchChar(fold, pattern, s, i, |a| - i);
        }
        forall k | 0 <= k < |pattern| ensures fold(a[i + k]) == fold(pattern[k]) {
          MatchChar(fold, pattern, s, i, k);
        }
        assert MatchesAt(fold, pattern, a, i);
      }
    }
    if Occurs(fold, pattern, a) {
      OccursIn(fold, pattern, "", a, [SEPARATOR] + b);
      assert "" + a + ([SEPARATOR] + b) == s;
    }
    if Occurs(fold, pattern, b) {
      OccursIn(fold, pattern, a + [SEPARATOR], b, "");
      assert a + [SEPARATOR] + b + "" == s;
    }
  }

  lemma {:induction false} OccursInJoin(fold: char -> char, pattern: string, parts: seq<string>)
    requires pattern != "" && WithoutSeparator(fold, pattern)
    ensures Occurs(fold, pattern, Join(parts)) <==>
            exists k :: 0 <= k < |parts| && Occurs(fold, pattern, parts[k])
  {
    if parts == [] {
      AbsentWithout(fold, pattern, 0, "");
    } else if |parts| > 1 {
      OccursBesideSeparator(fold, pattern, parts[0], Join(parts[1..]));
      OccursInJoin(fold, pattern, parts[1..]);
      assert parts == [parts[0]] + parts[1..];
      if k :| 0 <= k < |parts| && Occurs(fold, pattern, parts[k]) {
        if k > 0 {
          assert parts[1..][k - 1] == parts[k];
        }
      }
    }
  }

  /** A pattern without wildcards and separator matches the flattened payload
      exactly when it matches a leaf: joining never creates a match. */
  lemma {:induction false} LiteralMatchesOneLeaf(fold: char -> char, pattern: string, input: Json)
    requires Literal(pattern) && WithoutSeparator(fold, pattern)
    ensures GlobSearch(fold, pattern, Flattened(input)) <==>
            exists leaf :: HasLeaf(input, leaf) && GlobSearch(fold, pattern, leaf)
  {
    if leaf :| HasLeaf(input, leaf) && GlobSearch(fold, pattern, leaf) {
      LeafMatchIsTextMatch(fold, pattern, input, leaf);
    }
    if GlobSearch(fold, pattern, Flattened(input)) {
      LiteralFound(fold, pattern, Flattened(input));
      OccursInJoin(fold, pattern, Leaves(input));
      var k :| 0 <= k < |Leaves(input)| && Occurs(fold, pattern, Leaves(input)[k]);
      var leaf := Leaves(input)[k];
      ListedIsLeaf(input, leaf);
      LiteralFound(fold, pattern, leaf);
    }
  }

  /** With a wildcard the separator does not keep fields apart. */
  lemma {:induction false} WildcardCrossesFields()
    ensures var input := Obj(["x", "y"], [Str("a"), Str("b")]);
            GlobSearch(Exactly, "a*b", Flattened(input)) &&
            !GlobSearch(Exactly, "a*b", "a") && !GlobSearch(Exactly, "a*b", "b")
  {
    var js := [Str("a"), Str("b")];
    var t := ['a', SEPARATOR, 'b'];
    assert Leaves(Obj(["x", "y"], js)) == ["a", "b"] by {
      assert js[1..] == [Str("b")] && js[1..][1..] == [];
      assert ItemLeaves(js[1..]) == ["b"];
    }
    assert Join(["a", "b"]) == t by {
      assert ["a", "b"][1..] == ["b"];
    }
    var p := Compiled("a*b");
    assert p == [Char('a'), AnyRun, Char('b')];
    assert p[1..] == [AnyRun, Char('b')] && p[1..][1..] == [Char('b')] && p[1..][1..][1..] == [];
    assert t[1..] == [SEPARATOR, 'b'] && t[1..][1..] == ['b'] && t[1..][1..][1..] == [];
    assert MatchesFront(Exactly, p[1..], ['b']);
    assert MatchesFront(Exactly, p, t[0..]);
    assert !MatchesFront(Exactly, p[1..], "");
    assert "a"[0..] == "a" && "a"[1..] == "" && "b"[0..] == "b" && "b"[1..] == "";
  }
}
