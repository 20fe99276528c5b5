/** The exact cache told from the history of its calls: when each entry was last
    accessed, who is evicted by that, and what a put leaves. */
module ExactHistory {
  import opened Options
  import opened Exact

  /** When a key was last put and accepted, or got while it was live. */
  ghost function LastAccess(ops: seq<Op>, key: nat): Option<real> {
    if ops == [] then None
    else
      var front, op := ops[..|ops| - 1], ops[|ops| - 1];
      match op
      case Put(k, payload, now, maxEntryKb, _) =>
        if k == key && |payload| <= maxEntryKb * 1024 then Some(now) else LastAccess(front, key)
      case Get(k, now) => if k == key && key in Run(front).live then Some(now) else LastAccess(front, key)
      case Expire(_) => LastAccess(front, key)
  }

  /** Scores are the times of the last accesses, and every live entry has one. */
  ghost predicate ScoresAreAccesses(ops: seq<Op>) {
    && (forall k :: k in Run(ops).idx ==> LastAccess(ops, k) == Some(Run(ops).idx[k]))
    && (forall k :: k in Run(ops).live ==> k in Run(ops).idx)
  }

  lemma {:induction false} IndexIsLastAccess(ops: seq<Op>)
    ensures ScoresAreAccesses(ops)
  {
    if ops != [] {
      var front, op := ops[..|ops| - 1], ops[|ops| - 1];
      IndexIsLastAccess(front);
      if op.Put? && Accepts(op.payload, op.maxEntryKb) {
        var s := Run(front);
        EvictsOldestFirst(s, |op.payload| - SizeAt(s.live, op.key), op.quotaKb * 1024);
      }
    }
  }

  /** A key that a put of another one evicts was last accessed no later than any
      that it keeps; at the same time the smaller digest goes. */
  lemma {:induction false} LeastRecentlyUsedGoes(ops: seq<Op>, gone: nat, kept: nat)
    requires ops != [] && ops[|ops| - 1].Put?
    requires var op, s := ops[|ops| - 1], Run(ops[..|ops| - 1]);
             gone != op.key && kept != op.key && gone in s.live && kept in s.live
    requires gone !in Run(ops).live && kept in Run(ops).live
    ensures var front := ops[..|ops| - 1];
            var a, b := LastAccess(front, gone), LastAccess(front, kept);
            a.Some? && b.Some? && (a.value < b.value || (a.value == b.value && gone < kept))
  {
    var front, op := ops[..|ops| - 1], ops[|ops| - 1];
    IndexIsLastAccess(front);
    GoneBeforeKept(Run(front), op, gone, kept);
  }

  lemma {:induction false} GoneBeforeKept(s: Org, op: Op, gone: nat, kept: nat)
    requires op.Put? && gone != op.key && kept != op.key && s.live.Keys <= s.idx.Keys
    requires gone in s.live && gone !in Apply(s, op).live && kept in s.live && kept in Apply(s, op).live
    ensures Before(s.idx, gone, kept)
  {
    EvictsOldestFirst(s, |op.payload| - SizeAt(s.live, op.key), op.quotaKb * 1024);
  }

  /** Nothing but eviction, expiry and overwriting changes an entry: an accepted
      put holds its payload, keeps the others as they were, and all of them if
      there is room; a refused one and a get change no entry. */
  lemma {:induction false} OthersStay(ops: seq<Op>)
    requires ops != [] && !ops[|ops| - 1].Expire?
    ensures var op, s, t := ops[|ops| - 1], Run(ops[..|ops| - 1]), Run(ops);
            if op.Put? && |op.payload| <= op.maxEntryKb * 1024 then
              && op.key in t.live && t.live[op.key] == op.payload
              && (forall k :: k in t.live && k != op.key ==> k in s.live && t.live[k] == s.live[k])
              && (s.bytes + |op.payload| - SizeAt(s.live, op.key) <= op.quotaKb * 1024 ==>
                    t.live == s.live[op.key := op.payload])
            else t.live == s.live && t.bytes == s.bytes
  {
    var op, s := ops[|ops| - 1], Run(ops[..|ops| - 1]);
    if op.Put? && Accepts(op.payload, op.maxEntryKb) {
      EvictsOldestFirst(s, |op.payload| - SizeAt(s.live, op.key), op.quotaKb * 1024);
    }
  }

  /** Expiry takes just the entries that it names; index and counter stay. */
  lemma {:induction false} ExpiryTakesEntries(ops: seq<Op>, gone: set<nat>)
    ensures var s, t := Run(ops), Run(ops + [Expire(gone)]);
            t.idx == s.idx && t.bytes == s.bytes &&
            forall k :: (k in t.live <==> k in s.live && k !in gone) && (k in t.live ==> t.live[k] == s.live[k])
  {
    assert (ops + [Expire(gone)])[..|ops|] == ops;
  }

  /** A hit saves an entry: of two that fit together, the one got last stays. */
  lemma {:induction false} HitSavesEntry(a: Payload, b: Payload, c: Payload)
    requires |a| == 600 && |b| == 400 && |c| == 424
    ensures var ops := [Put(1, a, 1.0, 1, 1), Put(2, b, 2.0, 1, 1), Get(1, 3.0), Put(3, c, 4.0, 1, 1)];
            Run(ops).live == map[1 := a, 3 := c] && Run(ops).bytes == 1024
  {
    var ops := [Put(1, a, 1.0, 1, 1), Put(2, b, 2.0, 1, 1), Get(1, 3.0), Put(3, c, 4.0, 1, 1)];
    var two := [Put(1, a, 1.0, 1, 1), Put(2, b, 2.0, 1, 1)];
    TwoPuts(a, b);
    assert ops[..3][..2] == two && ops[..3] == two + [Get(1, 3.0)];
    assert Run(ops[..3]) == Org(map[1 := a, 2 := b], map[1 := 3.0, 2 := 2.0], 1000);
    SecondGoes(a, b, c);
  }

  lemma {:induction false} SecondGoes(a: Payload, b: Payload, c: Payload)
    requires |a| == 600 && |b| == 400 && |c| == 424
    ensures var t := Stored(Org(map[1 := a, 2 := b], map[1 := 3.0, 2 := 2.0], 1000), 3, c, 4.0, 1);
            t.live == map[1 := a, 3 := c] && t.bytes == 1024
  {
    var s := Org(map[1 := a, 2 := b], map[1 := 3.0, 2 := 2.0], 1000);
    LruIs(s.idx, 2);
    assert EvictOne(s) == Org(map[1 := a], map[1 := 3.0], 600);
    assert EvictToFit(s, 424, 1024) == EvictOne(s);
    assert map[1 := a][3 := c] == map[1 := a, 3 := c];
  }
}
