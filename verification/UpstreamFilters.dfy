/** The pre-provider filter: reversible placeholders for detected text, kept in
    a short-lived mapping and undone on the response. */
module UpstreamFilters {
  import opened Options
  import opened Text
  import ContentFilter

  /** A detection; `rule` is the rule's `name` in upper case. `full` may be
      empty, in which case `short` (the truncated text) stands in for it. */
  datatype Violation = Violation(
    name: string, rule: string, full: string, short: string, severity: ContentFilter.Severity)
  {
    function Original(): string { if full != "" then full else short }
  }

  datatype Pair = Pair(placeholder: string, original: string)
  type Mapping = seq<Pair>

  datatype Outcome = Outcome(text: string, mapping: Mapping)

  function Inner(vs: seq<Violation>, i: nat): string
    requires i < |vs|
  {
    "PSEUDO_" + vs[i].rule + "_" + Decimal(i)
  }

  function Placeholder(vs: seq<Violation>, i: nat): string
    requires i < |vs|
  {
    "[" + Inner(vs, i) + "]"
  }

  /** Assignment to a Python dict: an existing key keeps its place. */
  function Assign(m: Mapping, key: string, value: string): Mapping {
    if m == [] then [Pair(key, value)]
    else if m[0].placeholder == key then [Pair(key, value)] + m[1..]
    else [m[0]] + Assign(m[1..], key, value)
  }

  predicate Skipped(s: string, o: string) {
    o == "" || !Occurs(Exactly, o, s)
  }

  function Step(out: Outcome, vs: seq<Violation>, i: nat): Outcome
    requires i < |vs|
  {
    var o := vs[i].Original();
    if Skipped(out.text, o) then out
    else Outcome(ReplaceAll(Exactly, out.text, o, Placeholder(vs, i)),
                 Assign(out.mapping, Placeholder(vs, i), o))
  }

  /** The state after the first `n` violations. */
  function Run(text: string, vs: seq<Violation>, n: nat): Outcome
    requires n <= |vs|
  {
    if n == 0 then Outcome(text, []) else Step(Run(text, vs, n - 1), vs, n - 1)
  }

  function Restore(s: string, m: Mapping): string
    decreases m
  {
    if m == [] then s
    else Restore(ReplaceAll(Exactly, s, m[0].placeholder, m[0].original), m[1..])
  }

  // ---- the filter object

  datatype Mode = Redact | Pseudonymize
  datatype Config = Config(commercialOnly: bool, categories: set<string>, mode: Mode)
  datatype Filtered = Filtered(text: string, mappingId: Option<string>, counts: map<string, nat>)

  class UpstreamFilter {
    /** The pseudonym entries in Valkey, by mapping id. */
    var store: map<string, Mapping>

    constructor ()
      ensures store == map[]
    {
      store := map[];
    }

    method PseudonymizeText(text: string, vs: seq<Violation>) returns (result: string, mapping: Mapping)
      ensures Outcome(result, mapping) == Run(text, vs, |vs|)
    {
      result, mapping := text, [];
      for i := 0 to |vs|
        invariant Outcome(result, mapping) == Run(text, vs, i)
      {
        var o := vs[i].Original();
        if o == "" || !Occurs(Exactly, o, result) {
          continue;
        }
        mapping := Assign(mapping, Placeholder(vs, i), o);
        result := ReplaceAll(Exactly, result, o, Placeholder(vs, i));
      }
    }

    method CountByRule(vs: seq<Violation>) returns (counts: map<string, nat>)
      ensures counts == Counts(vs)
      ensures forall r :: r in counts <==> Named(vs, r) != {}
      ensures forall r :: r in counts ==> counts[r] == |Named(vs, r)|
    {
      counts := map[];
      for i := 0 to |vs|
        invariant counts == Counts(vs[..i])
      {
        var r := vs[i].name;
        assert vs[..i + 1][..i] == vs[..i];
        counts := counts[r := 1 + if r in counts then counts[r] else 0];
      }
      assert vs[..|vs|] == vs;
      CountsAreNumbers(vs);
    }

    /** `detected` is what tiers 1 to 3 report, `freshId` the new uuid. In mode
        "redact" the text is the one that the content filter's verdict gives. */
    method Apply(text: string, config: Option<Config>, commercial: bool, detected: seq<Violation>,
                 fold: char -> char, freshId: string) returns (r: Filtered)
      modifies this
      ensures config.None? || (config.value.commercialOnly && !commercial) ==>
                r == Filtered(text, None, map[]) && store == old(store)
      ensures config.Some? && !(config.value.commercialOnly && !commercial) ==>
                var kept := Kept(detected, config.value.categories);
                && r.counts == Counts(kept)
                && (kept == [] ==> r.text == text && r.mappingId == None && store == old(store))
                && (kept != [] && config.value.mode == Redact ==>
                      && r.text == ContentFilter.Filtered(fold, text, ForFilter(kept)).1
                      && r.mappingId == None && store == old(store))
                && (kept != [] && config.value.mode == Pseudonymize ==>
                      && r.mappingId == Some(freshId)
                      && r.text == Run(text, kept, |kept|).text
                      && store == old(store)[freshId := Run(text, kept, |kept|).mapping])
    {
      if config.None? || (config.value.commercialOnly && !commercial) {
        return Filtered(text, None, map[]);
      }
      var kept := Kept(detected, config.value.categories);
      var counts := CountByRule(kept);
      if kept == [] {
        return Filtered(text, None, counts);
      }
      if config.value.mode == Pseudonymize {
        var t, m := PseudonymizeText(text, kept);
        store := store[freshId := m];
        return Filtered(t, Some(freshId), counts);
      }
      var _, filtered := ContentFilter.DetermineAction(fold, text, ForFilter(kept));
      return Filtered(filtered, None, counts);
    }

    /** An expired or unknown mapping leaves the response as it is. */
    method Depseudonymize(response: string, mappingId: Option<string>) returns (s: string)
      ensures s == if mappingId.None? || mappingId.value !in store then response
                   else Restore(response, store[mappingId.value])
    {
      if mappingId.None? || mappingId.value !in store {
        return response;
      }
      var m := store[mappingId.value];
      s := response;
      for i := 0 to |m|
        invariant Restore(s, m[i..]) == Restore(response, m)
      {
        s := ReplaceAll(Exactly, s, m[i].placeholder, m[i].original);
        assert m[i..][1..] == m[i + 1..];
      }
    }

    method Cleanup(mappingId: Option<string>)
      modifies this
      ensures store == if mappingId.None? then old(store) else old(store) - {mappingId.value}
    {
      if mappingId.Some? {
        store := store - {mappingId.value};
      }
    }
  }

  /** The violations as the content filter sees them. */
  function ForFilter(vs: seq<Violation>): (r: seq<ContentFilter.Violation>)
    ensures |r| == |vs|
    ensures forall i :: 0 <= i < |vs| ==> r[i] == ContentFilter.Violation(vs[i].severity, vs[i].full, vs[i].short)
  {
    if vs == [] then []
    else [ContentFilter.Violation(vs[0].severity, vs[0].full, vs[0].short)] + ForFilter(vs[1..])
  }

  function Kept(vs: seq<Violation>, categories: set<string>): seq<Violation> {
    if categories == {} then vs
    else if vs == [] then []
    else (if vs[0].name in categories then [vs[0]] else []) + Kept(vs[1..], categories)
  }

  /** Where the violations of a rule are. */
  function Named(vs: seq<Violation>, r: string): set<nat> {
    set i: nat | i < |vs| && vs[i].name == r
  }

  lemma {:induction false} NamedStep(vs: seq<Violation>, r: string)
    requires vs != []
    ensures var n := |vs| - 1;
            Named(vs, r) == Named(vs[..n], r) + (if vs[n].name == r then {n} else {}) && n !in Named(vs[..n], r)
  {}

  /** The counts have exactly the names that occur, each with how often it does. */
  lemma {:induction false} CountsAreNumbers(vs: seq<Violation>)
    ensures forall r :: r in Counts(vs) <==> Named(vs, r) != {}
    ensures forall r :: r in Counts(vs) ==> Counts(vs)[r] == |Named(vs, r)|
  {
    if vs == [] {
      assert forall r :: Named(vs, r) == {};
    } else {
      var front := vs[..|vs| - 1];
      CountsAreNumbers(front);
      forall r
        ensures r in Counts(vs) <==> Named(vs, r) != {}
        ensures r in Counts(vs) ==> Counts(vs)[r] == |Named(vs, r)|
      {
        NamedStep(vs, r);
      }
    }
  }

  /** With categories, those of their rules are kept, in order; else all. */
  lemma {:induction false} KeptInOrder(vs: seq<Violation>, v: Violation, categories: set<string>)
    ensures Kept([], categories) == []
    ensures Kept(vs + [v], categories) ==
            if categories == {} || v.name in categories then Kept(vs, categories) + [v] else Kept(vs, categories)
  {
    if categories != {} {
      if vs == [] {
        assert [v][1..] == [] && [] + [v] == [v];
      } else {
        KeptInOrder(vs[1..], v, categories);
        assert (vs + [v])[1..] == vs[1..] + [v];
        assert v.name !in categories ==> Kept(vs + [v], categories) == Kept(vs, categories);
      }
    }
  }

  function Counts(vs: seq<Violation>): map<string, nat> {
    if vs == [] then map[]
    else
      var m := Counts(vs[..|vs| - 1]);
      var r := vs[|vs| - 1].name;
      m[r := 1 + if r in m then m[r] else 0]
  }
}
