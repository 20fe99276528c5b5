/** The session scratchpad: a hot tier with expiry in front of durable rows that
    carry a status. */
module Scratchpad {
  import opened Options

  /** Organization, session, user and name together make a key. */
  datatype Key = Key(org: int, session: string, user: int, name: string)

  /** Times are in seconds. */
  datatype Row = Row(value: string, active: bool, expires: real)
  datatype Hot = Hot(value: string, expires: real)
  datatype Tiers = Tiers(hot: map<Key, Hot>, rows: map<Key, Row>)

  /** What the write filter makes of a value. */
  datatype Verdict = Verdict(filtered: string, quarantine: bool)
  datatype Limits = Limits(maxValueKb: nat, maxKeys: nat)

  datatype PutResult = TooLarge | KeyLimit | Stored | Quarantined

  function ActiveKeys(rows: map<Key, Row>, k: Key): set<Key> {
    set j | j in rows && j.org == k.org && j.session == k.session && j.user == k.user && rows[j].active
  }

  /** `size` is the value's length in bytes. */
  function Admission(t: Tiers, k: Key, size: nat, limits: Limits): Option<PutResult> {
    if size > limits.maxValueKb * 1024 then Some(TooLarge)
    else if k !in t.rows && |ActiveKeys(t.rows, k)| >= limits.maxKeys then Some(KeyLimit)
    else None
  }

  function Written(t: Tiers, k: Key, v: Verdict, now: real, ttl: real): Tiers {
    Tiers(if v.quarantine then t.hot - {k} else t.hot[k := Hot(v.filtered, now + ttl)],
          t.rows[k := Row(v.filtered, !v.quarantine, now + ttl)])
  }

  function Fetched(t: Tiers, k: Key, now: real, ttl: real): (Option<string>, Tiers) {
    if k in t.hot && now < t.hot[k].expires then (Some(t.hot[k].value), t)
    else if k !in t.rows || !t.rows[k].active || t.rows[k].expires < now then (None, t)
    else (Some(t.rows[k].value), t.(hot := t.hot[k := Hot(t.rows[k].value, now + ttl)]))
  }

  function Removed(t: Tiers, k: Key): Tiers {
    Tiers(t.hot - {k}, t.rows - {k})
  }

  /** What is refused: values above the limit in bytes, and new keys of a session
      and user who have as many active ones as they may. */
  lemma {:induction false} AdmissionMeaning(t: Tiers, k: Key, size: nat, limits: Limits)
    ensures var a := Admission(t, k, size, limits);
            var theirs := set j | j in t.rows && t.rows[j].active && j.org == k.org && j.session == k.session &&
                                  j.user == k.user;
            if size > 1024 * limits.maxValueKb then a == Some(TooLarge)
            else if k !in t.rows && |theirs| >= limits.maxKeys then a == Some(KeyLimit)
            else a == None
  {
    assert ActiveKeys(t.rows, k) == set j | j in t.rows && t.rows[j].active && j.org == k.org &&
                                            j.session == k.session && j.user == k.user;
  }

  class ScratchpadStore {
    var hot: map<Key, Hot>
    var rows: map<Key, Row>
    const ttl: real

    function View(): Tiers
      reads this
    {
      Tiers(hot, rows)
    }

    constructor (ttl: real)
      ensures View() == Tiers(map[], map[]) && this.ttl == ttl
    {
      hot, rows := map[], map[];
      this.ttl := ttl;
    }

    method Put(k: Key, size: nat, v: Verdict, limits: Limits, now: real) returns (r: PutResult)
      modifies this
      ensures var refused := Admission(old(View()), k, size, limits);
              if refused.Some? then r == refused.value && View() == old(View())
              else r == (if v.quarantine then Quarantined else Stored) && View() == Written(old(View()), k, v, now, ttl)
    {
      if size > limits.maxValueKb * 1024 {
        return TooLarge;
      }
      if k !in rows {
        var current := |ActiveKeys(rows, k)|;
        if current >= limits.maxKeys {
          return KeyLimit;
        }
      }
      rows := rows[k := Row(v.filtered, !v.quarantine, now + ttl)];
      if !v.quarantine {
        hot := hot[k := Hot(v.filtered, now + ttl)];
        return Stored;
      }
      hot := hot - {k};
      return Quarantined;
    }

    method Get(k: Key, now: real) returns (r: Option<string>)
      modifies this
      ensures (r, View()) == Fetched(old(View()), k, now, ttl)
    {
      if k in hot && now < hot[k].expires {
        return Some(hot[k].value);
      }
      if k !in rows {
        return None;
      }
      var row := rows[k];
      if !row.active {
        return None;
      }
      if row.expires < now {
        return None;
      }
      hot := hot[k := Hot(row.value, now + ttl)];
      return Some(row.value);
    }

    method Delete(k: Key) returns (existed: bool)
      modifies this
      ensures existed == (k in old(rows)) && View() == Removed(old(View()), k)
    {
      hot := hot - {k};
      existed := k in rows;
      rows := rows - {k};
    }
  }

  // ---- runs

  /** `Lose` is the loss of any hot entries, by expiry or eviction. */
  datatype Op =
    | Put(key: Key, size: nat, verdict: Verdict, limits: Limits, now: real)
    | Get(key: Key, now: real)
    | Delete(key: Key)
    | Lose(gone: set<Key>)

  function Apply(t: Tiers, op: Op, ttl: real): Tiers {
    match op
    case Put(k, size, v, limits, now) => if Admission(t, k, size, limits).Some? then t else Written(t, k, v, now, ttl)
    case Get(k, now) => Fetched(t, k, now, ttl).1
    case Delete(k) => Removed(t, k)
    case Lose(gone) => t.(hot := t.hot - gone)
  }

  function Run(ops: seq<Op>, ttl: real): Tiers {
    if ops == [] then Tiers(map[], map[]) else Apply(Run(ops[..|ops| - 1], ttl), ops[|ops| - 1], ttl)
  }

  /** The last admitted put of a key that no delete followed. */
  function LastPut(ops: seq<Op>, k: Key, ttl: real): (last: Option<Op>)
    ensures last.Some? ==> last.value.Put?
  {
    if ops == [] then None
    else
      var front, op := ops[..|ops| - 1], ops[|ops| - 1];
      if op.Put? && op.key == k && Admission(Run(front, ttl), k, op.size, op.limits).None? then Some(op)
      else if op.Delete? && op.key == k then None
      else LastPut(front, k, ttl)
  }

  function RowOf(op: Op, ttl: real): Row
    requires op.Put?
  {
    Row(op.verdict.filtered, !op.verdict.quarantine, op.now + ttl)
  }

  /** A hot value is that of the active row, and outlives it by at most one time
      to live. */
  ghost predicate Agree(t: Tiers, ttl: real) {
    forall k :: k in t.hot ==>
      k in t.rows && t.rows[k].active && t.hot[k].value == t.rows[k].value &&
      t.hot[k].expires <= t.rows[k].expires + ttl
  }

  lemma {:induction false} TiersAgree(ops: seq<Op>, ttl: real)
    requires ttl >= 0.0
    ensures Agree(Run(ops, ttl), ttl)
  {
    if ops != [] {
      TiersAgree(ops[..|ops| - 1], ttl);
    }
  }

  /** The durable row is that of the last put. */
  lemma {:induction false} RowIsLastPut(ops: seq<Op>, k: Key, ttl: real)
    ensures var t, last := Run(ops, ttl), LastPut(ops, k, ttl);
            && (k in t.rows <==> last.Some?)
            && (k in t.rows ==> t.rows[k] == RowOf(last.value, ttl))
  {
    if ops != [] {
      RowIsLastPut(ops[..|ops| - 1], k, ttl);
    }
  }

  /** After any run a get returns only the filtered text of the last put of that
      very key, which was neither quarantined nor deleted since, and only before
      twice the time to live is over; within the time to live it returns it. */
  lemma {:induction false} GetReturnsLastPut(ops: seq<Op>, k: Key, now: real, ttl: real)
    requires ttl > 0.0
    ensures var got, last := Fetched(Run(ops, ttl), k, now, ttl).0, LastPut(ops, k, ttl);
            && (got.Some? ==> last.Some? && !last.value.verdict.quarantine)
            && (got.Some? ==> got.value == last.value.verdict.filtered && now < last.value.now + 2.0 * ttl)
            && (last.Some? && !last.value.verdict.quarantine && now <= last.value.now + ttl ==>
                  got == Some(last.value.verdict.filtered))
  {
    TiersAgree(ops, ttl);
    RowIsLastPut(ops, k, ttl);
  }

  /** When the hot value of a key was last set, told from the history alone: by
      its last admitted put, or by a later get that found the value gone from
      the hot tier and the row still good; `None` if it was never set, or was
      quarantined, deleted or lost since. */
  function Warmed(ops: seq<Op>, k: Key, ttl: real): Option<real> {
    if ops == [] then None
    else
      var front, op := ops[..|ops| - 1], ops[|ops| - 1];
      var warmed, put := Warmed(front, k, ttl), LastPut(front, k, ttl);
      match op
      case Put(j, size, v, limits, now) =>
        if j != k || Admission(Run(front, ttl), k, size, limits).Some? then warmed
        else if v.quarantine then None else Some(now)
      case Get(j, now) =>
        if j != k || (warmed.Some? && now < warmed.value + ttl) then warmed
        else if put.Some? && !put.value.verdict.quarantine && now <= put.value.now + ttl then Some(now)
        else warmed
      case Delete(j) => if j == k then None else warmed
      case Lose(gone) => if k in gone then None else warmed
  }

  lemma {:induction false} HotIsWarmed(ops: seq<Op>, k: Key, ttl: real)
    ensures var hot, warmed := Run(ops, ttl).hot, Warmed(ops, k, ttl);
            (k in hot <==> warmed.Some?) && (k in hot ==> hot[k].expires == warmed.value + ttl)
  {
    if ops != [] {
      var front := ops[..|ops| - 1];
      HotIsWarmed(front, k, ttl);
      RowIsLastPut(front, k, ttl);
    }
  }

  /** A get returns a value exactly when the last put was not quarantined, is not
      deleted, and either its own time to live or that of the last warming is
      not over. */
  lemma {:induction false} ServedIff(ops: seq<Op>, k: Key, now: real, ttl: real)
    requires ttl >= 0.0
    ensures var got, put, warmed := Fetched(Run(ops, ttl), k, now, ttl).0, LastPut(ops, k, ttl), Warmed(ops, k, ttl);
            got.Some? <==>
              put.Some? && !put.value.verdict.quarantine &&
              (now <= put.value.now + ttl || (warmed.Some? && now < warmed.value + ttl))
  {
    TiersAgree(ops, ttl);
    HotIsWarmed(ops, k, ttl);
    RowIsLastPut(ops, k, ttl);
  }

  /** The second time to live is real: a read that finds the row just before it
      expires warms the hot tier again, and a later read is served from there. */
  lemma {:induction false} ServedAfterExpiry(k: Key, v: Verdict, ttl: real)
    requires ttl > 0.0 && !v.quarantine
    ensures var ops := [Put(k, 0, v, Limits(1, 1), 0.0), Lose({k}), Get(k, ttl)];
            Fetched(Run(ops, ttl), k, ttl + ttl / 2.0, ttl).0 == Some(v.filtered)
  {
    var ops := [Put(k, 0, v, Limits(1, 1), 0.0), Lose({k}), Get(k, ttl)];
    assert ops[..2] == [ops[0], ops[1]] && ops[..2][..1] == [ops[0]] && ops[..2][..1][..0] == [];
    var t1 := Run(ops[..2][..1], ttl);
    assert Admission(Tiers(map[], map[]), k, 0, Limits(1, 1)) == None by {
      assert ActiveKeys(map[], k) == {};
    }
    assert t1 == Written(Run(ops[..2][..1][..0], ttl), k, v, 0.0, ttl);
    var t2 := Run(ops[..2], ttl);
    assert k !in t2.hot && t2.rows[k] == Row(v.filtered, true, ttl);
  }
}
