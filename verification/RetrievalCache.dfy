/** The retrieval-result cache: results are stored under the corpus version read
    before computing them, and every write to the corpus bumps the version. */
module RetrievalCache {

  /** One corpus: an organization and a store name. */
  datatype Scope = Scope(org: int, store: string)

  /** The key of a cached result; the query stands for its hash. */
  datatype Key = Key(scope: Scope, version: nat, query: string, topK: nat)

  class RetrievalResultCache<R> {
    var versions: map<Scope, nat>
    var results: map<Key, R>
    const enabled: bool

    constructor (enabled: bool)
      ensures versions == map[] && results == map[] && this.enabled == enabled
    {
      versions, results := map[], map[];
      this.enabled := enabled;
    }

    function Version(s: Scope): nat
      reads this
    {
      if s in versions then versions[s] else 0
    }

    method BumpCorpusVersion(s: Scope) returns (v: nat)
      modifies this`versions
      ensures v == 1 + if s in old(versions) then old(versions)[s] else 0
      ensures versions == old(versions)[s := v]
    {
      v := Version(s) + 1;
      versions := versions[s := v];
    }

    /** A lookup that nothing interrupts; `computed` is what computing gives. */
    method GetOrCompute(s: Scope, query: string, topK: nat, computed: R) returns (r: R)
      modifies this`results
      ensures var key := Key(s, if s in versions then versions[s] else 0, query, topK);
              if enabled && key in old(results) then r == old(results)[key] && results == old(results)
              else r == computed && results == if enabled then old(results)[key := computed] else old(results)
    {
      if !enabled {
        return computed;
      }
      var key := Key(s, Version(s), query, topK);
      if key in results {
        return results[key];
      }
      results := results[key := computed];
      return computed;
    }
  }

  // ---- lookups and writes in any interleaving

  /** A writer changes the corpus and then bumps its version. */
  datatype Progress = Idle | Changed | Bumped(version: nat)
  datatype Writer = Writer(scope: Scope, progress: Progress)

  /** What computing gives: the answer to a query on a corpus, and the writes that
      were in it. */
  datatype Result = Result(scope: Scope, query: string, topK: nat, seen: set<nat>)

  /** What a lookup has done: read the version, missed the cache, computed. The
      set names the writes in the corpus that its result was computed from. */
  datatype Phase =
    | Started
    | Versioned(v: nat)
    | Missed(v: nat)
    | Computed(v: nat, result: Result)
    | Returned(v: nat, result: Result)

  datatype Reader = Reader(scope: Scope, query: string, topK: nat, phase: Phase)

  datatype State = State(writers: seq<Writer>, readers: seq<Reader>, versions: map<Scope, nat>,
                         cache: map<Key, Result>)

  datatype Step = Change(w: nat) | Bump(w: nat) | Advance(r: nat) | Expire(gone: set<Key>)

  function VersionIn(s: State, scope: Scope): nat {
    if scope in s.versions then s.versions[scope] else 0
  }

  /** The writes that are in the corpus of a scope. */
  function Corpus(ws: seq<Writer>, scope: Scope): set<nat> {
    set w | 0 <= w < |ws| && ws[w].scope == scope && ws[w].progress != Idle
  }

  function Read(s: State, r: Reader): (Reader, map<Key, Result>) {
    match r.phase
    case Started => (r.(phase := Versioned(VersionIn(s, r.scope))), s.cache)
    case Versioned(v) =>
      var key := Key(r.scope, v, r.query, r.topK);
      (r.(phase := if key in s.cache then Returned(v, s.cache[key]) else Missed(v)), s.cache)
    case Missed(v) => (r.(phase := Computed(v, Result(r.scope, r.query, r.topK, Corpus(s.writers, r.scope)))), s.cache)
    case Computed(v, result) =>
      (r.(phase := Returned(v, result)), s.cache[Key(r.scope, v, r.query, r.topK) := result])
    case Returned(_, _) => (r, s.cache)
  }

  /** A step that is not possible leaves the state as it is. */
  function Next(s: State, step: Step): (t: State)
    ensures |t.writers| == |s.writers| && |t.readers| == |s.readers|
  {
    match step
    case Change(w) =>
      if w < |s.writers| && s.writers[w].progress == Idle
      then s.(writers := s.writers[w := s.writers[w].(progress := Changed)]) else s
    case Bump(w) =>
      if w < |s.writers| && s.writers[w].progress == Changed
      then
        var scope := s.writers[w].scope;
        var v := VersionIn(s, scope) + 1;
        s.(writers := s.writers[w := Writer(scope, Bumped(v))], versions := s.versions[scope := v])
      else s
    case Advance(r) =>
      if r < |s.readers|
      then
        var (reader, cache) := Read(s, s.readers[r]);
        s.(readers := s.readers[r := reader], cache := cache)
      else s
    case Expire(gone) => s.(cache := s.cache - gone)
  }

  function Run(s: State, steps: seq<Step>): (t: State)
    ensures |t.writers| == |s.writers| && |t.readers| == |s.readers|
  {
    if steps == [] then s else Next(Run(s, steps[..|steps| - 1]), steps[|steps| - 1])
  }

  predicate Initial(s: State) {
    && (forall w :: 0 <= w < |s.writers| ==> s.writers[w].progress == Idle)
    && (forall r :: 0 <= r < |s.readers| ==> s.readers[r].phase == Started)
    && s.versions == map[] && s.cache == map[]
  }

  // ---- a result under version v reflects every write bumped by v

  predicate BumpedBy(w: Writer, v: nat) {
    w.progress.Bumped? && w.progress.version <= v
  }

  /** The result was computed from a state of this corpus that had every write
      bumped up to version `v`. */
  ghost predicate Reflects(s: State, scope: Scope, v: nat, seen: set<nat>) {
    && v <= VersionIn(s, scope)
    && seen <= Corpus(s.writers, scope)
    && forall w :: 0 <= w < |s.writers| && s.writers[w].scope == scope && BumpedBy(s.writers[w], v) ==> w in seen
  }

  /** The result is for this query, and as many hits as were asked for. */
  predicate Answers(x: Result, scope: Scope, query: string, topK: nat) {
    x.scope == scope && x.query == query && x.topK == topK
  }

  ghost predicate ReaderFine(s: State, r: Reader) {
    match r.phase
    case Started => true
    case Versioned(v) => v <= VersionIn(s, r.scope)
    case Missed(v) => v <= VersionIn(s, r.scope)
    case Computed(v, x) => Reflects(s, r.scope, v, x.seen) && Answers(x, r.scope, r.query, r.topK)
    case Returned(v, x) => Reflects(s, r.scope, v, x.seen) && Answers(x, r.scope, r.query, r.topK)
  }

  ghost predicate Fine(s: State) {
    && (forall w :: 0 <= w < |s.writers| && s.writers[w].progress.Bumped? ==>
          s.writers[w].progress.version <= VersionIn(s, s.writers[w].scope))
    && (forall key :: key in s.cache ==> Reflects(s, key.scope, key.version, s.cache[key].seen))
    && (forall key :: key in s.cache ==> Answers(s.cache[key], key.scope, key.query, key.topK))
    && (forall r :: 0 <= r < |s.readers| ==> ReaderFine(s, s.readers[r]))
  }

  /** A write or a bump invalidates nothing that was computed before: a new bump
      always exceeds the version of every existing result. */
  lemma {:induction false} WriterKeepsReflects(s: State, step: Step, scope: Scope, v: nat, seen: set<nat>)
    requires (step.Change? || step.Bump?) && Reflects(s, scope, v, seen)
    ensures Reflects(Next(s, step), scope, v, seen)
  {
    var t := Next(s, step);
    forall w | w in Corpus(s.writers, scope) ensures w in Corpus(t.writers, scope) {
    }
  }

  lemma {:induction false} WriterKeepsFine(s: State, step: Step)
    requires (step.Change? || step.Bump?) && Fine(s)
    ensures Fine(Next(s, step))
  {
    var t := Next(s, step);
    forall key | key in t.cache ensures Reflects(t, key.scope, key.version, t.cache[key].seen) {
      WriterKeepsReflects(s, step, key.scope, key.version, s.cache[key].seen);
    }
    forall r | 0 <= r < |t.readers| ensures ReaderFine(t, t.readers[r]) {
      var p := s.readers[r].phase;
      if p.Computed? || p.Returned? {
        WriterKeepsReflects(s, step, s.readers[r].scope, p.v, p.result.seen);
      }
    }
  }

  lemma {:induction false} AdvanceKeepsFine(s: State, i: nat)
    requires Fine(s)
    ensures Fine(Next(s, Advance(i)))
  {
    if i < |s.readers| {
      var t := Next(s, Advance(i));
      assert forall scope, v, seen :: Reflects(s, scope, v, seen) ==> Reflects(t, scope, v, seen);
      assert ReaderFine(s, s.readers[i]);
      forall r | 0 <= r < |t.readers| ensures ReaderFine(t, t.readers[r]) {
        assert ReaderFine(s, s.readers[r]);
      }
    }
  }

  /** Whatever the interleaving, anything cached under version `v`, and anything a
      lookup that read version `v` holds, reflects every write bumped by `v`. */
  lemma {:induction false} CacheReflectsBumps(s: State, steps: seq<Step>)
    requires Initial(s)
    ensures Fine(Run(s, steps))
  {
    if steps != [] {
      var front, step := steps[..|steps| - 1], steps[|steps| - 1];
      CacheReflectsBumps(s, front);
      var u := Run(s, front);
      match step
      case Change(_) => WriterKeepsFine(u, step);
      case Bump(_) => WriterKeepsFine(u, step);
      case Advance(i) => AdvanceKeepsFine(u, i);
      case Expire(gone) =>
        assert forall scope, v, seen :: Reflects(u, scope, v, seen) ==> Reflects(Next(u, step), scope, v, seen);
    }
  }

  /** What only grows: versions, bumps, and the version a lookup has read. */
  ghost predicate Follows(s: State, t: State) {
    && |s.writers| == |t.writers| && |s.readers| == |t.readers|
    && (forall scope :: VersionIn(s, scope) <= VersionIn(t, scope))
    && (forall w :: 0 <= w < |s.writers| ==> s.writers[w].scope == t.writers[w].scope)
    && (forall w :: 0 <= w < |s.writers| && s.writers[w].progress.Bumped? ==> t.writers[w] == s.writers[w])
    && (forall r :: 0 <= r < |s.readers| ==> s.readers[r].(phase := Started) == t.readers[r].(phase := Started))
    && (forall r :: 0 <= r < |s.readers| && s.readers[r].phase == Started && t.readers[r].phase != Started ==>
          t.readers[r].phase.v >= VersionIn(s, s.readers[r].scope))
  }

  lemma {:induction false} WriterFollows(s: State, t: State, step: Step)
    requires Follows(s, t) && (step.Change? || step.Bump?)
    ensures Follows(s, Next(t, step))
  {}

  lemma {:induction false} ReaderFollows(s: State, t: State, i: nat)
    requires Follows(s, t)
    ensures Follows(s, Next(t, Advance(i)))
  {}

  lemma {:induction false} StepFollows(s: State, t: State, step: Step)
    requires Follows(s, t)
    ensures Follows(s, Next(t, step))
  {
    match step
    case Change(_) => WriterFollows(s, t, step);
    case Bump(_) => WriterFollows(s, t, step);
    case Advance(i) => ReaderFollows(s, t, i);
    case Expire(_) =>
  }

  lemma {:induction false} RunFollows(s: State, steps: seq<Step>, n: nat)
    requires n <= |steps|
    ensures Follows(Run(s, steps[..n]), Run(s, steps))
    decreases |steps|
  {
    if n == |steps| {
      assert steps[..n] == steps;
    } else {
      var front := steps[..|steps| - 1];
      assert front[..n] == steps[..n];
      RunFollows(s, front, n);
      StepFollows(Run(s, steps[..n]), Run(s, front), steps[|steps| - 1]);
    }
  }

  /** A lookup that starts after a write's bump never returns a result that
      misses the write, nor one with writes of another corpus, nor one for another
      query or another number of hits. */
  lemma {:induction false} NoStaleResult(s: State, steps: seq<Step>, n: nat, w: nat, r: nat)
    requires Initial(s) && n <= |steps| && w < |s.writers| && r < |s.readers|
    requires s.writers[w].scope == s.readers[r].scope
    requires var now := Run(s, steps[..n]);
             now.writers[w].progress.Bumped? && now.readers[r].phase == Started
    ensures var end := Run(s, steps);
            end.readers[r].phase.Returned? ==>
              var x := end.readers[r].phase.result;
              w in x.seen && x.seen <= Corpus(end.writers, s.readers[r].scope) &&
              Answers(x, s.readers[r].scope, s.readers[r].query, s.readers[r].topK)
  {
    assert steps[..0] == [];
    RunFollows(s, steps, 0);
    RunFollows(s, steps, n);
    CacheReflectsBumps(s, steps[..n]);
    CacheReflectsBumps(s, steps);
    var now, end := Run(s, steps[..n]), Run(s, steps);
    assert ReaderFine(end, end.readers[r]);
    assert now.writers[w].progress.version <= VersionIn(now, s.writers[w].scope);
    assert end.writers[w] == now.writers[w];
  }

  /** What was returned and stored is served again, without computing, to every
      lookup for the same under the same version, until it expires. */
  lemma {:induction false} ReturnedIsServed(s: State, i: nat, j: nat)
    requires i < |s.readers| && j < |s.readers| && i != j && s.readers[i].phase.Computed?
    requires var a, b := s.readers[i], s.readers[j];
             b.phase == Versioned(a.phase.v) && b.(phase := Started) == a.(phase := Started)
    ensures var t := Next(Next(s, Advance(i)), Advance(j));
            t.readers[i].phase == t.readers[j].phase == Returned(s.readers[i].phase.v, s.readers[i].phase.result)
  {}

  lemma {:induction false} RunOneMore(s: State, steps: seq<Step>, step: Step)
    ensures Run(s, []) == s && Run(s, steps + [step]) == Next(Run(s, steps), step)
  {
    assert (steps + [step])[..|steps|] == steps;
  }

  /** The first write makes version one, and a lookup after it computes from a
      corpus with exactly that write. */
  lemma {:induction false} LookupAfterFirstWrite(s: State, w: nat, r: nat)
    requires Initial(s) && w < |s.writers| && r < |s.readers| && s.writers[w].scope == s.readers[r].scope
    ensures var reader := s.readers[r];
            var end := Run(s, [Change(w), Bump(w), Advance(r), Advance(r), Advance(r), Advance(r)]);
            && end.writers[w].progress == Bumped(1)
            && end.readers[r].phase == Returned(1, Result(reader.scope, reader.query, reader.topK, {w}))
  {
    var scope := s.readers[r].scope;
    var written := [Change(w), Bump(w)];
    RunOneMore(s, [], Change(w));
    RunOneMore(s, [Change(w)], Bump(w));
    var a := Run(s, written);
    assert [Change(w)] + [Bump(w)] == written && [] + [Change(w)] == [Change(w)];
    assert Corpus(a.writers, scope) == {w};
    RunOneMore(s, written, Advance(r));
    RunOneMore(s, written + [Advance(r)], Advance(r));
    RunOneMore(s, written + [Advance(r), Advance(r)], Advance(r));
    RunOneMore(s, written + [Advance(r), Advance(r), Advance(r)], Advance(r));
    assert written + [Advance(r)] + [Advance(r)] == written + [Advance(r), Advance(r)];
    assert written + [Advance(r), Advance(r)] + [Advance(r)] == written + [Advance(r), Advance(r), Advance(r)];
    assert written + [Advance(r), Advance(r), Advance(r)] + [Advance(r)] ==
           [Change(w), Bump(w), Advance(r), Advance(r), Advance(r), Advance(r)];
  }
}
