/** The exact response cache: per organization, the live entries, an index
    ordered by last access, and a byte counter kept apart from both. */
module Exact {
  import opened Options
  import opened Totals

  /** A serialized response; its length is its size in bytes. */
  type Payload = string

  /** One organization's namespace. Keys are SHA-256 digests, read as numbers. */
  datatype Org = Org(live: map<nat, Payload>, idx: map<nat, real>, bytes: nat)

  const EMPTY := Org(map[], map[], 0)

  /** The sorted set's order: by score, and by member when scores are equal. */
  predicate Before(idx: map<nat, real>, a: nat, b: nat)
    requires a in idx && b in idx
  {
    idx[a] < idx[b] || (idx[a] == idx[b] && a < b)
  }

  predicate IsLru(idx: map<nat, real>, m: nat) {
    m in idx && forall k :: k in idx ==> k == m || Before(idx, m, k)
  }

  lemma {:induction false} LruExists(idx: map<nat, real>)
    requires idx != map[]
    ensures exists m :: IsLru(idx, m)
    decreases |idx|
  {
    var k :| k in idx;
    var rest := idx - {k};
    if rest == map[] {
      assert forall j :: j in idx ==> j == k || j in rest;
      assert IsLru(idx, k);
    } else {
      LruExists(rest);
      var m :| IsLru(rest, m);
      assert forall j :: j in idx ==> j == k || j in rest;
      assert IsLru(idx, if Before(idx, m, k) then m else k);
    }
  }

  ghost function Lru(idx: map<nat, real>): (m: nat)
    requires idx != map[]
    ensures IsLru(idx, m)
  {
    LruExists(idx);
    var m :| IsLru(idx, m);
    m
  }

  lemma {:induction false} LruIs(idx: map<nat, real>, m: nat)
    requires IsLru(idx, m)
    ensures Lru(idx) == m
  {
    var n := Lru(idx);
    assert n == m || Before(idx, n, m);
  }

  function SizeAt(live: map<nat, Payload>, k: nat): nat {
    if k in live then |live[k]| else 0
  }

  function Floor0(n: int): nat {
    if n < 0 then 0 else n
  }

  ghost function EvictOne(s: Org): Org
    requires s.idx != map[]
  {
    var m := Lru(s.idx);
    Org(s.live - {m}, s.idx - {m}, Floor0(s.bytes - SizeAt(s.live, m)))
  }

  ghost function EvictToFit(s: Org, needed: int, quota: nat): Org
    decreases |s.idx|
  {
    if s.bytes + needed > quota && s.idx != map[] then EvictToFit(EvictOne(s), needed, quota) else s
  }

  predicate Accepts(payload: Payload, maxEntryKb: nat) {
    |payload| <= maxEntryKb * 1024
  }

  /** An accepted put. */
  ghost function Stored(s: Org, key: nat, payload: Payload, now: real, quotaKb: nat): Org {
    var delta := |payload| - SizeAt(s.live, key);
    var e := EvictToFit(s, delta, quotaKb * 1024);
    Org(e.live[key := payload], e.idx[key := now], Floor0(e.bytes + delta))
  }

  function Touched(s: Org, key: nat, now: real): Org {
    if key in s.live then s.(idx := s.idx[key := now]) else s
  }

  // ---- the cache object

  class ExactCache {
    var entries: map<int, map<nat, Payload>>
    var index: map<int, map<nat, real>>
    var counter: map<int, nat>

    function View(org: int): Org
      reads this
    {
      Org(if org in entries then entries[org] else map[],
          if org in index then index[org] else map[],
          if org in counter then counter[org] else 0)
    }

    constructor ()
      ensures forall org :: View(org) == EMPTY
    {
      entries, index, counter := map[], map[], map[];
    }

    /** A payload that does not parse counts as a miss, but its access is noted. */
    method Get(org: int, key: nat, now: real, parses: Payload -> bool) returns (r: Option<Payload>)
      modifies this
      ensures r == if key in old(View(org)).live && parses(old(View(org)).live[key])
                   then Some(old(View(org)).live[key]) else None
      ensures View(org) == Touched(old(View(org)), key, now)
      ensures forall o :: o != org ==> View(o) == old(View(o))
    {
      var live := View(org).live;
      if key !in live {
        return None;
      }
      index := index[org := View(org).idx[key := now]];
      if !parses(live[key]) {
        return None;
      }
      return Some(live[key]);
    }

    method Put(org: int, key: nat, payload: Payload, now: real, maxEntryKb: nat, quotaKb: nat) returns (ok: bool)
      modifies this
      ensures ok == (|payload| <= maxEntryKb * 1024)
      ensures View(org) == if ok then Stored(old(View(org)), key, payload, now, quotaKb) else old(View(org))
      ensures forall o :: o != org ==> View(o) == old(View(o))
    {
      if |payload| > maxEntryKb * 1024 {
        return false;
      }
      var oldSize := SizeAt(View(org).live, key);
      Evict(org, |payload| - oldSize, quotaKb);
      var s := View(org);
      Write(org, s.live[key := payload], s.idx[key := now], Floor0(s.bytes + |payload| - oldSize));
      return true;
    }

    method Evict(org: int, needed: int, quotaKb: nat)
      modifies this
      ensures View(org) == EvictToFit(old(View(org)), needed, quotaKb * 1024)
      ensures forall o :: o != org ==> View(o) == old(View(o))
    {
      var quota := quotaKb * 1024;
      var current := View(org).bytes;
      while current + needed > quota
        invariant current == View(org).bytes
        invariant EvictToFit(View(org), needed, quota) == EvictToFit(old(View(org)), needed, quota)
        invariant forall o :: o != org ==> View(o) == old(View(o))
        decreases |View(org).idx|
      {
        var s := View(org);
        if s.idx == map[] {
          break;
        }
        LruExists(s.idx);
        var member :| IsLru(s.idx, member);
        LruIs(s.idx, member);
        var size := SizeAt(s.live, member);
        current := if current - size < 0 then 0 else current - size;
        Write(org, s.live - {member}, s.idx - {member}, current);
      }
    }

    /** The three writes of one step, all under the organization's own keys. */
    method Write(org: int, live: map<nat, Payload>, idx: map<nat, real>, bytes: nat)
      modifies this
      ensures View(org) == Org(live, idx, bytes)
      ensures forall o :: o != org ==> View(o) == old(View(o))
    {
      entries := entries[org := live];
      index := index[org := idx];
      counter := counter[org := bytes];
    }
  }

  // ---- eviction is exact least-recently-used

  /** Keys left both the index and the entries; nothing else changed. */
  ghost predicate Trimmed(s: Org, e: Org) {
    && (forall k :: k in e.idx ==> k in s.idx && e.idx[k] == s.idx[k])
    && (forall k :: k in e.live ==> k in s.live && e.live[k] == s.live[k])
    && (forall k :: k in s.live ==> (k in e.live <==> k in e.idx || k !in s.idx))
  }

  /** Every key that left is older than every key still there. */
  ghost predicate OldestLeft(s: Org, e: Org) {
    forall a, b :: a in s.idx && a !in e.idx && b in e.idx ==> b in s.idx && Before(s.idx, a, b)
  }

  lemma {:induction false} EvictsOldestFirst(s: Org, needed: int, quota: nat)
    ensures Trimmed(s, EvictToFit(s, needed, quota)) && OldestLeft(s, EvictToFit(s, needed, quota))
    decreases |s.idx|
  {
    if s.bytes + needed > quota && s.idx != map[] {
      EvictsOldestFirst(EvictOne(s), needed, quota);
    }
  }

  /** The loop stops only when the write fits or nothing is left, and the last
      victim was needed: with it in place the write would not fit. */
  lemma {:induction false} EvictsNoMoreThanNeeded(s: Org, needed: int, quota: nat)
    ensures var e := EvictToFit(s, needed, quota);
            && (e.bytes + needed <= quota || e.idx == map[])
            && (e == s || exists last :: NeededToo(s, e, last, needed, quota))
    decreases |s.idx|
  {
    if s.bytes + needed > quota && s.idx != map[] {
      var t, e := EvictOne(s), EvictToFit(s, needed, quota);
      EvictsNoMoreThanNeeded(t, needed, quota);
      if e == t {
        assert NeededToo(s, e, Lru(s.idx), needed, quota);
      } else {
        EvictsOldestFirst(t, needed, quota);
        var last :| NeededToo(t, e, last, needed, quota);
        StillNeeded(s, e, last, needed, quota);
      }
    }
  }

  lemma {:induction false} StillNeeded(s: Org, e: Org, last: nat, needed: int, quota: nat)
    requires s.idx != map[] && Trimmed(EvictOne(s), e) && NeededToo(EvictOne(s), e, last, needed, quota)
    ensures NeededToo(s, e, last, needed, quota)
  {
    var t, m := EvictOne(s), Lru(s.idx);
    forall k | k in s.idx && k !in e.idx && k != last ensures Before(s.idx, k, last) {
      if k != m {
        assert k in t.idx;
      }
    }
  }

  /** `last` is the youngest victim, and the counter with its size added does
      not leave room for the write. */
  ghost predicate NeededToo(s: Org, e: Org, last: nat, needed: int, quota: nat) {
    && last in s.idx && last !in e.idx
    && (forall k :: k in s.idx && k !in e.idx && k != last ==> Before(s.idx, k, last))
    && e.bytes + SizeAt(s.live, last) + needed > quota
  }

  // ---- accounting

  function Sizes(live: map<nat, Payload>): map<nat, nat> {
    map k | k in live :: |live[k]|
  }

  ghost function Used(s: Org): nat {
    Total(Sizes(s.live))
  }

  /** Live entries are indexed, none is empty, and the counter covers them. */
  ghost predicate Valid(s: Org) {
    && s.live.Keys <= s.idx.Keys
    && (forall k :: k in s.live ==> s.live[k] != "")
    && Used(s) <= s.bytes
  }

  lemma {:induction false} EvictionKeepsAccounts(s: Org, needed: int, quota: nat)
    requires Valid(s)
    ensures var e := EvictToFit(s, needed, quota);
            && Valid(e) && (s.bytes == Used(s) ==> e.bytes == Used(e))
            && (e.bytes + needed <= quota || e.live == map[])
    decreases |s.idx|
  {
    if s.bytes + needed > quota && s.idx != map[] {
      OneEvictionKeepsAccounts(s);
      EvictionKeepsAccounts(EvictOne(s), needed, quota);
    } else if s.idx == map[] {
      assert s.live.Keys == {};
    }
  }

  lemma {:induction false} OneEvictionKeepsAccounts(s: Org)
    requires Valid(s) && s.idx != map[]
    ensures Valid(EvictOne(s)) && (s.bytes == Used(s) ==> EvictOne(s).bytes == Used(EvictOne(s)))
  {
    var m := Lru(s.idx);
    assert Sizes(s.live - {m}) == Sizes(s.live) - {m};
    if m in s.live {
      TotalWithout(Sizes(s.live), m);
    } else {
      assert Sizes(s.live) - {m} == Sizes(s.live);
    }
  }

  lemma {:induction false} StoredTotal(live: map<nat, Payload>, key: nat, payload: Payload)
    ensures Total(Sizes(live[key := payload])) + SizeAt(live, key) == Total(Sizes(live)) + |payload|
  {
    assert Sizes(live[key := payload]) == Sizes(live)[key := |payload|];
    TotalUpdate(Sizes(live), key, |payload|);
  }

  /** After a put of a key that is not live the counter is as good as before, and
      the organization is within its quota or holds the new entry alone. */
  lemma {:induction false} PutAfterMiss(s: Org, key: nat, payload: Payload, now: real, quotaKb: nat)
    requires Valid(s) && key !in s.live && payload != ""
    ensures var t := Stored(s, key, payload, now, quotaKb);
            && Valid(t) && (s.bytes == Used(s) ==> t.bytes == Used(t))
            && (Used(t) <= quotaKb * 1024 || t.live == map[key := payload])
  {
    var e := EvictToFit(s, |payload|, quotaKb * 1024);
    assert key !in e.live by {
      EvictsOldestFirst(s, |payload|, quotaKb * 1024);
    }
    EvictionKeepsAccounts(s, |payload|, quotaKb * 1024);
    NewEntryAccounts(e, key, payload, now, quotaKb * 1024);
  }

  lemma {:induction false} NewEntryAccounts(e: Org, key: nat, payload: Payload, now: real, quota: nat)
    requires Valid(e) && key !in e.live && payload != ""
    requires e.bytes + |payload| <= quota || e.live == map[]
    ensures var t := Org(e.live[key := payload], e.idx[key := now], e.bytes + |payload|);
            && Valid(t) && (e.bytes == Used(e) ==> t.bytes == Used(t))
            && (Used(t) <= quota || t.live == map[key := payload])
  {
    StoredTotal(e.live, key, payload);
    if e.live == map[] {
      assert e.live[key := payload] == map[key := payload];
    }
  }

  ghost predicate ExactlyCounted(s: Org) {
    s.bytes == Used(s)
  }

  /** What the live entries older than `key` take together. */
  ghost function OlderThan(s: Org, key: nat): nat
    requires Valid(s) && key in s.live
  {
    Total(Sizes(OlderEntries(s, key)))
  }

  function OlderEntries(s: Org, key: nat): map<nat, Payload>
    requires s.live.Keys <= s.idx.Keys && key in s.live
  {
    map k | k in s.live && Before(s.idx, k, key) :: s.live[k]
  }

  /** The put overwrites a live entry, and would not fit even with every entry
      older than that one gone. */
  ghost predicate EvictsItself(s: Org, key: nat, payload: Payload, quotaKb: nat)
    requires Valid(s)
  {
    key in s.live && s.bytes - OlderThan(s, key) + |payload| - |s.live[key]| > quotaKb * 1024
  }

  lemma {:induction false} OlderWithoutOldest(s: Org, key: nat)
    requires Valid(s) && key in s.live && Lru(s.idx) != key && Valid(EvictOne(s))
    ensures OlderThan(s, key) == OlderThan(EvictOne(s), key) + SizeAt(s.live, Lru(s.idx))
  {
    var m, t := Lru(s.idx), EvictOne(s);
    var all, rest := Sizes(OlderEntries(s, key)), Sizes(OlderEntries(t, key));
    assert rest == all - {m};
    if m in s.live {
      TotalWithout(all, m);
    } else {
      assert all - {m} == all;
    }
  }

  /** A live entry is evicted exactly when the write would not fit even with
      every older entry gone. */
  lemma {:induction false} EvictedIff(s: Org, key: nat, needed: int, quota: nat)
    requires Valid(s) && key in s.live
    ensures key !in EvictToFit(s, needed, quota).live <==> s.bytes - OlderThan(s, key) + needed > quota
    decreases |s.idx|
  {
    if s.bytes + needed > quota {
      var m, t := Lru(s.idx), EvictOne(s);
      OneEvictionKeepsAccounts(s);
      SizeIsUsed(s, m);
      if m == key {
        EvictsOldestFirst(t, needed, quota);
      } else {
        OlderWithoutOldest(s, key);
        EvictedIff(t, key, needed, quota);
      }
    }
  }

  /** From exact accounts a put keeps them exact unless it evicts the entry it
      overwrites, as can be told before it, and then it never does. */
  lemma {:induction false} PutKeepsExactIff(s: Org, key: nat, payload: Payload, now: real, quotaKb: nat)
    requires Valid(s) && ExactlyCounted(s) && payload != ""
    ensures ExactlyCounted(Stored(s, key, payload, now, quotaKb)) <==> !EvictsItself(s, key, payload, quotaKb)
  {
    var delta, quota := |payload| - SizeAt(s.live, key), quotaKb * 1024;
    var e := EvictToFit(s, delta, quota);
    assert Floor0(e.bytes + delta) == Total(Sizes(e.live[key := payload])) <==> !(key in s.live && key !in e.live) by {
      EvictionKeepsAccounts(s, delta, quota);
      EvictsOldestFirst(s, delta, quota);
      OverwriteAccounts(s, e, key, payload);
    }
    if key in s.live {
      EvictedIff(s, key, delta, quota);
    }
  }

  lemma {:induction false} OverwriteAccounts(s: Org, e: Org, key: nat, payload: Payload)
    requires Valid(s) && Trimmed(s, e) && e.bytes == Used(e) && payload != ""
    ensures Floor0(e.bytes + |payload| - SizeAt(s.live, key)) == Total(Sizes(e.live[key := payload])) <==>
            !(key in s.live && key !in e.live)
  {
    StoredTotal(e.live, key, payload);
    SizeIsUsed(e, key);
    assert key in e.live ==> e.live[key] == s.live[key];
    assert key in s.live ==> s.live[key] != "";
  }

  lemma {:induction false} SizeIsUsed(s: Org, key: nat)
    ensures SizeAt(s.live, key) <= Used(s)
  {
    if key in s.live {
      TotalWithout(Sizes(s.live), key);
    }
  }

  // ---- runs

  datatype Op =
    | Get(key: nat, now: real)
    | Put(key: nat, payload: Payload, now: real, maxEntryKb: nat, quotaKb: nat)
    | Expire(gone: set<nat>)

  ghost function Apply(s: Org, op: Op): Org {
    match op
    case Get(k, now) => Touched(s, k, now)
    case Put(k, p, now, maxKb, quotaKb) => if Accepts(p, maxKb) then Stored(s, k, p, now, quotaKb) else s
    case Expire(gone) => s.(live := s.live - gone)
  }

  ghost function Run(ops: seq<Op>): Org {
    if ops == [] then EMPTY else Apply(Run(ops[..|ops| - 1]), ops[|ops| - 1])
  }

  /** Puts come only after a miss, as the response cache issues them. */
  ghost predicate AfterMissOnly(ops: seq<Op>) {
    forall i :: 0 <= i < |ops| && ops[i].Put? ==> ops[i].payload != "" && ops[i].key !in Run(ops[..i]).live
  }

  ghost predicate NothingExpired(ops: seq<Op>) {
    forall i :: 0 <= i < |ops| && ops[i].Expire? ==> ops[i].gone !! Run(ops[..i]).live.Keys
  }

  lemma {:induction false} ExpiryKeepsValid(s: Org, gone: set<nat>)
    requires Valid(s)
    ensures Valid(s.(live := s.live - gone))
    ensures gone !! s.live.Keys ==> s.live - gone == s.live
  {
    assert Sizes(s.live - gone) == Sizes(s.live) - gone;
    TotalOfPart(Sizes(s.live), gone);
  }

  /** In every run the counter covers the live entries, and equals their total
      if nothing has expired. */
  lemma {:induction false} CounterCoversContents(ops: seq<Op>)
    requires AfterMissOnly(ops)
    ensures Valid(Run(ops)) && (NothingExpired(ops) ==> Run(ops).bytes == Used(Run(ops)))
  {
    if ops != [] {
      var n := |ops| - 1;
      var front, s := ops[..n], Run(ops[..n]);
      assert forall i :: 0 <= i < n ==> front[..i] == ops[..i];
      CounterCoversContents(front);
      match ops[n]
      case Get(k, now) =>
      case Put(k, p, now, maxKb, quotaKb) =>
        PutAfterMiss(s, k, p, now, quotaKb);
      case Expire(gone) =>
        ExpiryKeepsValid(s, gone);
    } else {
      assert Sizes(EMPTY.live) == map[];
    }
  }

  /** Every accepted put of such a run leaves the organization within its quota
      or with the new entry alone. */
  lemma {:induction false} QuotaAfterPut(ops: seq<Op>)
    requires ops != [] && AfterMissOnly(ops)
    requires var op := ops[|ops| - 1]; op.Put? && Accepts(op.payload, op.maxEntryKb)
    ensures var op := ops[|ops| - 1];
            Used(Run(ops)) <= op.quotaKb * 1024 || Run(ops).live == map[op.key := op.payload]
  {
    var n := |ops| - 1;
    assert forall i :: 0 <= i < n ==> ops[..n][..i] == ops[..i];
    CounterCoversContents(ops[..n]);
    var op := ops[n];
    PutAfterMiss(Run(ops[..n]), op.key, op.payload, op.now, op.quotaKb);
  }

  /** An overwrite that evicts its own key: 600 and 400 bytes are held, the
      600-byte entry is replaced by one of 1024, and the counter says 824. */
  lemma {:induction false} OverwriteUndercounts(a: Payload, b: Payload, c: Payload)
    requires |a| == 600 && |b| == 400 && |c| == 1024
    ensures var s := Run([Put(1, a, 1.0, 1, 1), Put(2, b, 2.0, 1, 1)]);
            var t := Stored(s, 1, c, 3.0, 1);
            t.live == map[1 := c, 2 := b] && t.bytes == 824 && Used(t) == 1424
  {
    TwoPuts(a, b);
    OverwriteOldest(Run([Put(1, a, 1.0, 1, 1), Put(2, b, 2.0, 1, 1)]), a, b, c);
  }

  lemma {:induction false} OverwriteOldest(s: Org, a: Payload, b: Payload, c: Payload)
    requires |a| == 600 && |b| == 400 && |c| == 1024
    requires s == Org(map[1 := a, 2 := b], map[1 := 1.0, 2 := 2.0], 1000)
    ensures var t := Stored(s, 1, c, 3.0, 1);
            t.live == map[1 := c, 2 := b] && t.bytes == 824 && Used(t) == 1424
  {
    OnlyOldestEvicted(a, b);
    assert Stored(s, 1, c, 3.0, 1) == Org(map[2 := b][1 := c], map[2 := 2.0][1 := 3.0], 824);
    assert map[2 := b][1 := c] == map[1 := c, 2 := b];
    TwoSizes(c, b);
  }

  lemma {:induction false} OnlyOldestEvicted(a: Payload, b: Payload)
    requires |a| == 600 && |b| == 400
    ensures EvictToFit(Org(map[1 := a, 2 := b], map[1 := 1.0, 2 := 2.0], 1000), 424, 1024) ==
            Org(map[2 := b], map[2 := 2.0], 400)
  {
    var s := Org(map[1 := a, 2 := b], map[1 := 1.0, 2 := 2.0], 1000);
    LruIs(s.idx, 1);
    assert EvictOne(s) == Org(map[2 := b], map[2 := 2.0], 400);
  }

  lemma {:induction false} TwoPuts(a: Payload, b: Payload)
    requires |a| == 600 && |b| == 400
    ensures Run([Put(1, a, 1.0, 1, 1), Put(2, b, 2.0, 1, 1)]) ==
            Org(map[1 := a, 2 := b], map[1 := 1.0, 2 := 2.0], 1000)
  {
    var ops := [Put(1, a, 1.0, 1, 1), Put(2, b, 2.0, 1, 1)];
    assert ops[..1] == [ops[0]] && ops[..1][..0] == [];
    assert Run(ops[..1][..0]) == EMPTY;
    assert Run(ops[..1]) == Org(map[1 := a], map[1 := 1.0], 600);
  }

  lemma {:induction false} TwoSizes(c: Payload, b: Payload)
    ensures Total(Sizes(map[1 := c, 2 := b])) == |c| + |b|
  {
    var m: map<nat, nat> := map[1 := |c|, 2 := |b|];
    assert Sizes(map[1 := c, 2 := b]) == m;
    TotalWithout(m, 1);
    TotalWithout(m - {1}, 2);
    assert m - {1} - {2} == map[];
  }

  // ---- the cache refines a map, organization by organization

  datatype Call = Call(org: int, op: Op)

  ghost function At(state: map<int, Org>, org: int): Org {
    if org in state then state[org] else EMPTY
  }

  ghost function RunCalls(calls: seq<Call>): map<int, Org> {
    if calls == [] then map[]
    else
      var s := RunCalls(calls[..|calls| - 1]);
      var c := calls[|calls| - 1];
      s[c.org := Apply(At(s, c.org), c.op)]
  }

  ghost function CallsOf(calls: seq<Call>, org: int): seq<Op> {
    if calls == [] then []
    else
      var c := calls[|calls| - 1];
      CallsOf(calls[..|calls| - 1], org) + if c.org == org then [c.op] else []
  }

  /** An organization's state depends on its own calls only. */
  lemma {:induction false} OrganizationsAreIsolated(calls: seq<Call>, org: int)
    ensures At(RunCalls(calls), org) == Run(CallsOf(calls, org))
  {
    if calls != [] {
      var front, c := calls[..|calls| - 1], calls[|calls| - 1];
      OrganizationsAreIsolated(front, org);
      if c.org == org {
        var ops := CallsOf(calls, org);
        assert ops[..|ops| - 1] == CallsOf(front, org);
      } else {
        assert CallsOf(calls, org) == CallsOf(front, org);
      }
    }
  }

  /** The payload of the last accepted put of a key. */
  ghost function LastPut(ops: seq<Op>, key: nat): Option<Payload> {
    if ops == [] then None
    else
      var op := ops[|ops| - 1];
      if op.Put? && op.key == key && Accepts(op.payload, op.maxEntryKb) then Some(op.payload)
      else LastPut(ops[..|ops| - 1], key)
  }

  /** A hit returns the payload last put under the same organization and key. */
  lemma {:induction false} HitIsLastPut(ops: seq<Op>, key: nat)
    requires key in Run(ops).live
    ensures LastPut(ops, key) == Some(Run(ops).live[key])
  {
    var front, op := ops[..|ops| - 1], ops[|ops| - 1];
    var s := Run(front);
    if op.Put? && Accepts(op.payload, op.maxEntryKb) {
      EvictsOldestFirst(s, |op.payload| - SizeAt(s.live, op.key), op.quotaKb * 1024);
    }
    if !(op.Put? && op.key == key && Accepts(op.payload, op.maxEntryKb)) {
      HitIsLastPut(front, key);
    }
  }
}
