/** Cache configuration resolved from three scopes, each cached by itself,
    missing rows included. */
module CacheConfig {
  import opened Options

  datatype Scope = Global | OfOrg(org: int) | OfKey(vkey: int)

  /** A row leaves a field open when its column is NULL. */
  datatype Row = Row(exactEnabled: Option<bool>, semanticEnabled: Option<bool>, semanticThreshold: Option<real>,
                     ttlSeconds: Option<int>, maxEntryKb: Option<int>, anthropicCacheControl: Option<bool>)

  datatype Config = Config(exactEnabled: bool, semanticEnabled: bool, semanticThreshold: real,
                           ttlSeconds: int, maxEntryKb: int, anthropicCacheControl: bool)

  const DEFAULTS := Config(true, false, 0.95, 86400, 256, true)

  function Or<T>(o: Option<T>, d: T): T {
    if o.Some? then o.value else d
  }

  function Overridden(c: Config, row: Option<Row>): Config {
    if row.None? then c
    else
      var r := row.value;
      Config(Or(r.exactEnabled, c.exactEnabled), Or(r.semanticEnabled, c.semanticEnabled),
             Or(r.semanticThreshold, c.semanticThreshold), Or(r.ttlSeconds, c.ttlSeconds),
             Or(r.maxEntryKb, c.maxEntryKb), Or(r.anthropicCacheControl, c.anthropicCacheControl))
  }

  /** Broader scopes first. */
  function Merged(rows: seq<Option<Row>>): Config {
    if rows == [] then DEFAULTS else Overridden(Merged(rows[..|rows| - 1]), rows[|rows| - 1])
  }

  function ScopesOf(org: int, vkey: Option<int>): seq<Scope> {
    [Global, OfOrg(org)] + if vkey.Some? then [OfKey(vkey.value)] else []
  }

  /** The table in the order in which it is read; of several rows for one scope
      the last counts. */
  datatype ScopeRow = ScopeRow(scope: Scope, row: Row)
  type Table = seq<ScopeRow>

  function Stored(db: Table, s: Scope): Option<Row> {
    if db == [] then None
    else if db[|db| - 1].scope == s then Some(db[|db| - 1].row)
    else Stored(db[..|db| - 1], s)
  }

  /** The table with the rows of a scope replaced. */
  function Replaced(db: Table, s: Scope, rows: seq<Row>): Table {
    if rows == [] then Others(db, s)
    else Replaced(db, s, rows[..|rows| - 1]) + [ScopeRow(s, rows[|rows| - 1])]
  }

  function Others(db: Table, s: Scope): Table {
    if db == [] then []
    else Others(db[..|db| - 1], s) + if db[|db| - 1].scope == s then [] else [db[|db| - 1]]
  }

  lemma {:induction false} OthersKeep(db: Table, s: Scope, t: Scope)
    ensures Stored(Others(db, s), t) == if s == t then None else Stored(db, t)
  {
    if db != [] {
      var front, last := db[..|db| - 1], db[|db| - 1];
      OthersKeep(front, s, t);
      if last.scope == s {
        assert Others(db, s) == Others(front, s);
      } else {
        StoredAppend(Others(front, s), last, t);
      }
    }
  }

  lemma {:induction false} StoredAppend(db: Table, r: ScopeRow, t: Scope)
    ensures Stored(db + [r], t) == if r.scope == t then Some(r.row) else Stored(db, t)
  {
    assert (db + [r])[..|db|] == db;
  }

  /** Replacing the rows of a scope leaves what is stored for the others. */
  lemma {:induction false} ReplacedKeeps(db: Table, s: Scope, rows: seq<Row>, t: Scope)
    ensures Stored(Replaced(db, s, rows), t) ==
            if s != t then Stored(db, t) else if rows == [] then None else Some(rows[|rows| - 1])
  {
    if rows == [] {
      OthersKeep(db, s, t);
    } else {
      var front, last := rows[..|rows| - 1], rows[|rows| - 1];
      ReplacedKeeps(db, s, front, t);
      StoredAppend(Replaced(db, s, front), ScopeRow(s, last), t);
    }
  }

  /** A cached entry is a row, or the knowledge that there is none. */
  type Cache = map<Scope, Option<Row>>

  function Looked(db: Table, cache: Cache, scopes: seq<Scope>): seq<Option<Row>> {
    if scopes == [] then []
    else
      var s := scopes[|scopes| - 1];
      Looked(db, cache, scopes[..|scopes| - 1]) + [if s in cache then cache[s] else Stored(db, s)]
  }

  function Filled(db: Table, cache: Cache, scopes: seq<Scope>): Cache {
    if scopes == [] then cache
    else
      var s := scopes[|scopes| - 1];
      var c := Filled(db, cache, scopes[..|scopes| - 1]);
      if s in cache then c else c[s := Stored(db, s)]
  }

  function Resolution(db: Table, cache: Cache, org: int, vkey: Option<int>): Config {
    Merged(Looked(db, cache, ScopesOf(org, vkey)))
  }

  function Fetched(db: Table, scopes: seq<Scope>): Cache {
    map s | s in scopes :: Stored(db, s)
  }

  class CacheConfigResolver {
    var db: Table
    var cache: Cache

    constructor (db: Table)
      ensures this.db == db && cache == map[]
    {
      this.db, cache := db, map[];
    }

    method Merge(rows: seq<Option<Row>>) returns (merged: Config)
      ensures merged == Merged(rows)
    {
      merged := DEFAULTS;
      for i := 0 to |rows|
        invariant merged == Merged(rows[..i])
      {
        assert rows[..i + 1][..i] == rows[..i];
        if rows[i].Some? {
          var r := rows[i].value;
          merged := merged.(exactEnabled := Or(r.exactEnabled, merged.exactEnabled));
          merged := merged.(semanticEnabled := Or(r.semanticEnabled, merged.semanticEnabled));
          merged := merged.(semanticThreshold := Or(r.semanticThreshold, merged.semanticThreshold));
          merged := merged.(ttlSeconds := Or(r.ttlSeconds, merged.ttlSeconds));
          merged := merged.(maxEntryKb := Or(r.maxEntryKb, merged.maxEntryKb));
          merged := merged.(anthropicCacheControl := Or(r.anthropicCacheControl, merged.anthropicCacheControl));
        }
      }
      assert rows[..|rows|] == rows;
    }

    method Resolve(org: int, vkey: Option<int>) returns (c: Config)
      modifies this`cache
      ensures c == Resolution(db, old(cache), org, vkey)
      ensures cache == Filled(db, old(cache), ScopesOf(org, vkey))
    {
      var scopes := ScopesOf(org, vkey);
      var hits, missing := Lookup(scopes);
      ghost var was := cache;
      var fetched := Fill(missing);
      FillCompletes(db, was, scopes, missing);
      var rows := RowsInOrder(scopes, hits + fetched, was);
      c := Merge(rows);
    }

    /** The cached rows of the scopes, and the scopes that are not cached. */
    method Lookup(scopes: seq<Scope>) returns (hits: map<Scope, Option<Row>>, missing: seq<Scope>)
      ensures forall s :: s in missing <==> s in scopes && s !in cache
      ensures forall s :: s in hits <==> s in scopes && s in cache
      ensures forall s :: s in hits ==> hits[s] == cache[s]
    {
      hits, missing := map[], [];
      for i := 0 to |scopes|
        invariant forall s :: s in missing <==> s in scopes[..i] && s !in cache
        invariant forall s :: s in hits <==> s in scopes[..i] && s in cache
        invariant forall s :: s in hits ==> hits[s] == cache[s]
      {
        assert scopes[..i + 1] == scopes[..i] + [scopes[i]];
        if scopes[i] in cache {
          hits := hits[scopes[i] := cache[scopes[i]]];
        } else {
          missing := missing + [scopes[i]];
        }
      }
      assert scopes[..|scopes|] == scopes;
    }

    /** Reads the missing rows and caches each, or that there is none. */
    method Fill(missing: seq<Scope>) returns (fetched: map<Scope, Option<Row>>)
      modifies this`cache
      ensures fetched == Fetched(db, missing) && cache == old(cache) + fetched
    {
      fetched := map[];
      for i := 0 to |missing|
        invariant fetched == Fetched(db, missing[..i]) && cache == old(cache) + fetched
      {
        var s := missing[i];
        assert missing[..i + 1] == missing[..i] + [s];
        fetched := fetched[s := Stored(db, s)];
        cache := cache[s := Stored(db, s)];
      }
      assert missing[..|missing|] == missing;
    }

    method RowsInOrder(scopes: seq<Scope>, found: map<Scope, Option<Row>>, ghost was: Cache)
      returns (rows: seq<Option<Row>>)
      requires forall s :: s in scopes ==> s in found && found[s] == if s in was then was[s] else Stored(db, s)
      ensures rows == Looked(db, was, scopes)
    {
      rows := [];
      for i := 0 to |scopes|
        invariant rows == Looked(db, was, scopes[..i])
      {
        assert scopes[..i + 1][..i] == scopes[..i];
        assert scopes[i] in scopes;
        rows := rows + [found[scopes[i]]];
      }
      assert scopes[..|scopes|] == scopes;
    }

    method Invalidate(s: Scope)
      modifies this`cache
      ensures cache == old(cache) - {s}
    {
      cache := cache - {s};
    }
  }

  lemma {:induction false} FilledIs(db: Table, cache: Cache, scopes: seq<Scope>)
    ensures var f := Filled(db, cache, scopes);
            && f.Keys == cache.Keys + (set s | s in scopes)
            && forall s :: s in f ==> f[s] == if s in cache then cache[s] else Stored(db, s)
  {
    if scopes != [] {
      FilledIs(db, cache, scopes[..|scopes| - 1]);
      assert scopes == scopes[..|scopes| - 1] + [scopes[|scopes| - 1]];
    }
  }

  lemma {:induction false} FillCompletes(db: Table, cache: Cache, scopes: seq<Scope>, missing: seq<Scope>)
    requires forall s :: s in missing <==> s in scopes && s !in cache
    ensures cache + Fetched(db, missing) == Filled(db, cache, scopes)
  {
    FilledIs(db, cache, scopes);
  }

  // ---- runs of writes, invalidations, expiries and lookups

  /** `Write` replaces the rows of a scope, of which there may be none, or several. */
  datatype Op =
    | Write(scope: Scope, rows: seq<Row>)
    | Invalidate(scope: Scope)
    | Expire(gone: set<Scope>)
    | Resolve(org: int, vkey: Option<int>)

  datatype State = State(db: Table, cache: Cache)

  function Apply(s: State, op: Op): State {
    match op
    case Write(scope, rows) => State(Replaced(s.db, scope, rows), s.cache)
    case Invalidate(scope) => State(s.db, s.cache - {scope})
    case Expire(gone) => s.(cache := s.cache - gone)
    case Resolve(org, vkey) => s.(cache := Filled(s.db, s.cache, ScopesOf(org, vkey)))
  }

  function Run(ops: seq<Op>): State {
    if ops == [] then State([], map[]) else Apply(Run(ops[..|ops| - 1]), ops[|ops| - 1])
  }

  /** The scope was written and not invalidated since. */
  predicate Awaits(ops: seq<Op>, scope: Scope) {
    exists i :: 0 <= i < |ops| && ops[i].Write? && ops[i].scope == scope &&
                forall j :: i < j < |ops| ==> ops[j] != Invalidate(scope)
  }

  lemma {:induction false} AwaitsStep(ops: seq<Op>, op: Op, scope: Scope)
    ensures !Awaits([], scope)
    ensures Awaits(ops + [op], scope) <==>
            (op.Write? && op.scope == scope) || (op != Invalidate(scope) && Awaits(ops, scope))
  {
    var all := ops + [op];
    if op != Invalidate(scope) && Awaits(ops, scope) {
      var i :| 0 <= i < |ops| && ops[i].Write? && ops[i].scope == scope &&
               forall j :: i < j < |ops| ==> ops[j] != Invalidate(scope);
      assert all[i] == ops[i] && forall j :: i < j < |ops| ==> all[j] == ops[j];
    }
    if op.Write? && op.scope == scope {
      assert all[|ops|] == op;
    } else if Awaits(all, scope) {
      var i :| 0 <= i < |all| && all[i].Write? && all[i].scope == scope &&
               forall j :: i < j < |all| ==> all[j] != Invalidate(scope);
      assert all[|ops|] == op && all[i] == ops[i] && forall j :: i < j < |ops| ==> all[j] == ops[j];
    }
  }

  /** What is cached for the scope, if anything, is what the table says. */
  predicate Truthful(s: State, scope: Scope) {
    scope in s.cache ==> s.cache[scope] == Stored(s.db, scope)
  }

  /** Away from scopes awaiting invalidation the cache tells the truth, about
      missing rows too. */
  lemma {:induction false} CacheIsTrue(ops: seq<Op>, scope: Scope)
    ensures !Awaits(ops, scope) ==> Truthful(Run(ops), scope)
  {
    if ops != [] {
      var front, op := ops[..|ops| - 1], ops[|ops| - 1];
      assert ops == front + [op];
      AwaitsStep(front, op, scope);
      CacheIsTrue(front, scope);
      if op.Write? {
        ReplacedKeeps(Run(front).db, op.scope, op.rows, scope);
      }
      if op.Resolve? {
        FilledIs(Run(front).db, Run(front).cache, ScopesOf(op.org, op.vkey));
      }
    }
  }

  /** The value of a field at the narrowest scope that sets it. */
  function Narrowest<T>(key: Option<T>, org: Option<T>, global: Option<T>, default: T): T {
    if key.Some? then key.value else if org.Some? then org.value else if global.Some? then global.value else default
  }

  function Field<T>(row: Option<Row>, f: Row -> Option<T>): Option<T> {
    if row.Some? then f(row.value) else None
  }

  /** Each field by itself, from the rows of the three scopes. */
  function FieldWise(g: Option<Row>, o: Option<Row>, k: Option<Row>): Config {
    Config(
      Narrowest(Field(k, (r: Row) => r.exactEnabled), Field(o, (r: Row) => r.exactEnabled),
                Field(g, (r: Row) => r.exactEnabled), true),
      Narrowest(Field(k, (r: Row) => r.semanticEnabled), Field(o, (r: Row) => r.semanticEnabled),
                Field(g, (r: Row) => r.semanticEnabled), false),
      Narrowest(Field(k, (r: Row) => r.semanticThreshold), Field(o, (r: Row) => r.semanticThreshold),
                Field(g, (r: Row) => r.semanticThreshold), 0.95),
      Narrowest(Field(k, (r: Row) => r.ttlSeconds), Field(o, (r: Row) => r.ttlSeconds),
                Field(g, (r: Row) => r.ttlSeconds), 86400),
      Narrowest(Field(k, (r: Row) => r.maxEntryKb), Field(o, (r: Row) => r.maxEntryKb),
                Field(g, (r: Row) => r.maxEntryKb), 256),
      Narrowest(Field(k, (r: Row) => r.anthropicCacheControl), Field(o, (r: Row) => r.anthropicCacheControl),
                Field(g, (r: Row) => r.anthropicCacheControl), true))
  }

  /** The configuration read directly from the table. */
  function Uncached(db: Table, org: int, vkey: Option<int>): Config {
    FieldWise(Stored(db, Global), Stored(db, OfOrg(org)), if vkey.Some? then Stored(db, OfKey(vkey.value)) else None)
  }

  lemma {:induction false} MergedThree(g: Option<Row>, o: Option<Row>, k: Option<Row>)
    ensures Merged([g, o]) == Overridden(Overridden(DEFAULTS, g), o)
    ensures Merged([g, o, k]) == Overridden(Overridden(Overridden(DEFAULTS, g), o), k)
  {
    assert [g, o, k][..2] == [g, o] && [g, o][..1] == [g] && [g][..0] == [];
    assert Merged([g]) == Overridden(DEFAULTS, g);
  }

  /** Overriding from broad to narrow takes each field from the narrowest scope
      that sets it. */
  lemma {:induction false} OverriddenIsNarrowest(g: Option<Row>, o: Option<Row>, k: Option<Row>)
    ensures Merged([g, o, k]) == FieldWise(g, o, k)
    ensures k == None ==> Merged([g, o]) == FieldWise(g, o, k)
  {
    MergedThree(g, o, k);
  }

  lemma {:induction false} LookedOf(db: Table, cache: Cache, scopes: seq<Scope>)
    ensures |Looked(db, cache, scopes)| == |scopes|
    ensures forall i :: 0 <= i < |scopes| ==>
              Looked(db, cache, scopes)[i] == if scopes[i] in cache then cache[scopes[i]] else Stored(db, scopes[i])
  {
    if scopes != [] {
      LookedOf(db, cache, scopes[..|scopes| - 1]);
    }
  }

  /** What a lookup read last for a scope, if it was neither invalidated nor
      expired since; told from the history alone. */
  function LastRead(ops: seq<Op>, scope: Scope): Option<Option<Row>> {
    if ops == [] then None
    else
      var front, op := ops[..|ops| - 1], ops[|ops| - 1];
      var last := LastRead(front, scope);
      match op
      case Write(_, _) => last
      case Invalidate(s) => if s == scope then None else last
      case Expire(gone) => if scope in gone then None else last
      case Resolve(org, vkey) =>
        if last == None && scope in ScopesOf(org, vkey) then Some(Stored(Run(front).db, scope)) else last
  }

  /** The row that a lookup goes by: the one read last, or the one there is now. */
  function Seen(ops: seq<Op>, scope: Scope): Option<Row> {
    Or(LastRead(ops, scope), Stored(Run(ops).db, scope))
  }

  lemma {:induction false} CachedIsLastRead(ops: seq<Op>, scope: Scope)
    ensures var cache, last := Run(ops).cache, LastRead(ops, scope);
            (scope in cache <==> last.Some?) && (scope in cache ==> cache[scope] == last.value)
  {
    if ops != [] {
      var front, op := ops[..|ops| - 1], ops[|ops| - 1];
      CachedIsLastRead(front, scope);
      if op.Resolve? {
        FilledIs(Run(front).db, Run(front).cache, ScopesOf(op.org, op.vkey));
      }
    }
  }

  /** After any run whatever, a lookup gives the field-wise merge of the rows
      seen for its scopes. */
  lemma {:induction false} ResolveGoesByRowsSeen(ops: seq<Op>, org: int, vkey: Option<int>)
    ensures Resolution(Run(ops).db, Run(ops).cache, org, vkey) ==
            FieldWise(Seen(ops, Global), Seen(ops, OfOrg(org)),
                      if vkey.Some? then Seen(ops, OfKey(vkey.value)) else None)
  {
    var s, scopes := Run(ops), ScopesOf(org, vkey);
    LookedOf(s.db, s.cache, scopes);
    CachedIsLastRead(ops, Global);
    CachedIsLastRead(ops, OfOrg(org));
    var g, o := Seen(ops, Global), Seen(ops, OfOrg(org));
    if vkey.Some? {
      CachedIsLastRead(ops, OfKey(vkey.value));
      var k := Seen(ops, OfKey(vkey.value));
      assert Looked(s.db, s.cache, scopes) == [g, o, k];
      OverriddenIsNarrowest(g, o, k);
    } else {
      assert Looked(s.db, s.cache, scopes) == [g, o];
      OverriddenIsNarrowest(g, o, None);
    }
  }

  /** So, with expiries and lookups anywhere, a lookup none of whose scopes
      awaits invalidation gives what the rows themselves say. */
  lemma {:induction false} ResolveIsUncached(ops: seq<Op>, org: int, vkey: Option<int>)
    requires forall scope :: scope in ScopesOf(org, vkey) ==> !Awaits(ops, scope)
    ensures Resolution(Run(ops).db, Run(ops).cache, org, vkey) == Uncached(Run(ops).db, org, vkey)
  {
    ResolveGoesByRowsSeen(ops, org, vkey);
    forall scope | scope in ScopesOf(org, vkey) ensures Seen(ops, scope) == Stored(Run(ops).db, scope) {
      CacheIsTrue(ops, scope);
      CachedIsLastRead(ops, scope);
    }
    assert Global in ScopesOf(org, vkey) && OfOrg(org) in ScopesOf(org, vkey);
  }

  /** Invalidating is needed: after a write alone, a cached scope is stale. */
  lemma {:induction false} StaleUntilInvalidated(org: int, row: Row)
    requires row.maxEntryKb.Some? && row.maxEntryKb.value != 256
    ensures var ops := [Resolve(org, None), Write(Global, [row])];
            Resolution(Run(ops).db, Run(ops).cache, org, None) == DEFAULTS != Uncached(Run(ops).db, org, None)
  {
    var ops := [Resolve(org, None), Write(Global, [row])];
    assert ops[..1] == [ops[0]] && ops[..1][..0] == [];
    var none: Option<Row> := None;
    FilledIs([], map[], ScopesOf(org, None));
    var s := Run(ops);
    ReplacedKeeps([], Global, [row], Global);
    assert Run(ops[..1]) == State([], Filled([], map[], ScopesOf(org, None)));
    assert s.cache[Global] == none && s.cache[OfOrg(org)] == none;
    var scopes := ScopesOf(org, None);
    assert scopes == [Global, OfOrg(org)];
    assert scopes[..1] == [Global] && scopes[..1][..0] == [];
    assert Looked(s.db, s.cache, scopes[..1]) == [none];
    assert Looked(s.db, s.cache, scopes) == [none, none];
    MergedThree(none, none, none);
    assert Uncached(s.db, org, None).maxEntryKb == row.maxEntryKb.value by {
      ReplacedKeeps([], Global, [row], OfOrg(org));
    }
  }
}
