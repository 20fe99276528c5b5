/** Escalation of a session to a stronger model, and the sticky state that keeps
    it escalated across turns. */
module Escalation {
  import opened Options

  datatype Trigger = NoTrigger | Hint | Complexity | Unhealthy | FailureSignal | StickyTurn
  datatype Decision = Decision(escalate: bool, trigger: Trigger)

  /** What one request brings to the decision; times are in seconds. */
  datatype Turn = Turn(at: real, newConversation: bool, complexity: Option<int>, unhealthy: bool, failure: bool,
                       hint: Option<string>)

  /** The threshold includes the shift from budget pressure. */
  datatype Policy = Policy(never: bool, idle: real, threshold: int, ttl: real)

  function ShouldEscalate(t: Turn, threshold: int): Decision {
    if t.hint == Some("true") || t.hint == Some("auto:high") then Decision(true, Hint)
    else if t.hint == Some("auto:low") then Decision(false, NoTrigger)
    else if t.complexity.Some? && t.complexity.value >= threshold then Decision(true, Complexity)
    else if t.unhealthy then Decision(true, Unhealthy)
    else if t.failure then Decision(true, FailureSignal)
    else Decision(false, NoTrigger)
  }

  /** The stored state of an escalated session: when it was last active, and when
      the entry expires. */
  datatype Mark = Mark(lastActive: real, expires: real)

  type Store = map<string, Mark>

  function Marked(store: Store, id: string, now: real, ttl: real): Store {
    if id == "" then store else store[id := Mark(now, now + ttl)]
  }

  predicate Visible(store: Store, id: string, now: real) {
    id != "" && id in store && now < store[id].expires
  }

  predicate IsStickyIn(store: Store, id: string, p: Policy, t: Turn) {
    Visible(store, id, t.at) && (p.never || (!t.newConversation && t.at - store[id].lastActive < p.idle))
  }

  /** The store after the stickiness check. An expired entry is gone once read. */
  function Checked(store: Store, id: string, p: Policy, t: Turn): Store {
    if !Visible(store, id, t.at) then store - {id}
    else if p.never then store
    else if IsStickyIn(store, id, p, t) then Marked(store, id, t.at, p.ttl)
    else store - {id}
  }

  function Resolved(store: Store, id: string, p: Policy, t: Turn): (Decision, Store) {
    var checked := Checked(store, id, p, t);
    if IsStickyIn(store, id, p, t) then (Decision(true, StickyTurn), checked)
    else
      var d := ShouldEscalate(t, p.threshold);
      (d, if d.escalate then Marked(checked, id, t.at, p.ttl) else checked)
  }

  class StickyState {
    var store: Store
    const ttl: real

    constructor (ttl: real)
      ensures store == map[] && this.ttl == ttl
    {
      store := map[];
      this.ttl := ttl;
    }

    method MarkEscalated(id: string, now: real)
      modifies this
      ensures store == Marked(old(store), id, now, ttl)
    {
      if id == "" {
        return;
      }
      store := store[id := Mark(now, now + ttl)];
    }

    method Reset(id: string)
      modifies this
      ensures store == if id == "" then old(store) else old(store) - {id}
    {
      if id == "" {
        return;
      }
      store := store - {id};
    }

    /** Reading an entry whose time is up finds nothing and drops it. */
    method Load(id: string, now: real) returns (m: Option<Mark>)
      modifies this
      ensures m == if id in old(store) && now < old(store)[id].expires then Some(old(store)[id]) else None
      ensures store == if m.Some? then old(store) else old(store) - {id}
    {
      if id in store && now < store[id].expires {
        return Some(store[id]);
      }
      store := store - {id};
      return None;
    }

    method IsSticky(id: string, p: Policy, t: Turn) returns (sticky: bool)
      requires p.ttl == ttl && "" !in store
      modifies this
      ensures sticky == IsStickyIn(old(store), id, p, t)
      ensures store == Checked(old(store), id, p, t) && "" !in store
    {
      if id == "" {
        assert store - {id} == store;
        return false;
      }
      var m := Load(id, t.at);
      if m.None? {
        return false;
      }
      if p.never {
        return true;
      }
      if t.newConversation {
        Reset(id);
        return false;
      }
      if t.at - m.value.lastActive >= p.idle {
        Reset(id);
        return false;
      }
      MarkEscalated(id, t.at);
      return true;
    }

    /** The escalation step of one request. */
    method ResolveEscalation(id: string, p: Policy, t: Turn) returns (d: Decision)
      requires p.ttl == ttl && "" !in store
      modifies this
      ensures (d, store) == Resolved(old(store), id, p, t) && "" !in store
    {
      var sticky := IsSticky(id, p, t);
      if sticky {
        return Decision(true, StickyTurn);
      }
      d := ShouldEscalate(t, p.threshold);
      if d.escalate && id != "" {
        MarkEscalated(id, t.at);
      }
    }
  }

  // ---- stickiness decided from the history

  function StoreAfter(id: string, p: Policy, turns: seq<Turn>): Store {
    if turns == [] then map[]
    else Resolved(StoreAfter(id, p, turns[..|turns| - 1]), id, p, turns[|turns| - 1]).1
  }

  /** The decision that turn `k` is sticky. */
  predicate StickyAt(id: string, p: Policy, turns: seq<Turn>, k: nat)
    requires k < |turns|
  {
    IsStickyIn(StoreAfter(id, p, turns[..k]), id, p, turns[k])
  }

  /** The turn has a trigger, and no hint against it. */
  predicate Fires(p: Policy, t: Turn) {
    t.hint == Some("true") || t.hint == Some("auto:high") ||
    (t.hint != Some("auto:low") &&
     ((t.complexity.Some? && t.complexity.value >= p.threshold) || t.unhealthy || t.failure))
  }

  /** Turn `m` carries an escalation on: no new conversation, and the gap since
      the turn before is below the idle limit and the time to live. */
  predicate CarriesOn(p: Policy, turns: seq<Turn>, m: nat)
    requires 0 < m < |turns|
  {
    !turns[m].newConversation && turns[m].at - turns[m - 1].at < p.idle && turns[m].at - turns[m - 1].at < p.ttl
  }

  /** Some turn before `k` had a trigger, and every turn since, before `end`,
      carried on. */
  predicate FiredAndCarried(p: Policy, turns: seq<Turn>, k: nat, end: nat)
    requires k <= end <= |turns|
  {
    exists j: nat :: j < k && Fires(p, turns[j]) && forall m: nat :: j < m < end ==> CarriesOn(p, turns, m)
  }

  lemma {:induction false} OneMoreTurn(p: Policy, turns: seq<Turn>, k: nat)
    requires 0 < k < |turns|
    ensures FiredAndCarried(p, turns, k, k + 1) <==> FiredAndCarried(p, turns, k, k) && CarriesOn(p, turns, k)
    ensures FiredAndCarried(p, turns, k + 1, k + 1) <==> FiredAndCarried(p, turns, k, k + 1) || Fires(p, turns[k])
  {
    if FiredAndCarried(p, turns, k, k) && CarriesOn(p, turns, k) {
      var j: nat :| j < k && Fires(p, turns[j]) && forall m: nat :: j < m < k ==> CarriesOn(p, turns, m);
      assert forall m: nat :: j < m < k + 1 ==> CarriesOn(p, turns, m);
    }
  }

  /** Under idle reset the entry exists exactly while an escalation is carried on,
      and holds the time of the last turn. */
  lemma {:induction false} EntryFollowsHistory(id: string, p: Policy, turns: seq<Turn>, k: nat)
    requires id != "" && !p.never && 0 < k <= |turns|
    ensures var store := StoreAfter(id, p, turns[..k]);
            && (id in store <==> FiredAndCarried(p, turns, k, k))
            && (id in store ==> store[id] == Mark(turns[k - 1].at, turns[k - 1].at + p.ttl))
  {
    assert turns[..k][..k - 1] == turns[..k - 1];
    if k == 1 {
      assert turns[..0] == [];
      assert FiredAndCarried(p, turns, 1, 1) <==> Fires(p, turns[0]);
    } else {
      EntryFollowsHistory(id, p, turns, k - 1);
      OneMoreTurn(p, turns, k - 1);
    }
  }

  /** Under idle reset a turn is sticky exactly when some earlier turn had a
      trigger and every turn since, this one included, carried on. */
  lemma {:induction false} StickyIffCarriedOn(id: string, p: Policy, turns: seq<Turn>, k: nat)
    requires id != "" && !p.never && k < |turns|
    ensures StickyAt(id, p, turns, k) <==> FiredAndCarried(p, turns, k, k + 1)
  {
    if k == 0 {
      assert turns[..0] == [];
    } else {
      EntryFollowsHistory(id, p, turns, k);
      OneMoreTurn(p, turns, k);
    }
  }

  /** Under "never": when the session was marked, if that mark is still kept after
      `k` turns. A turn within the time to live leaves it, any other ends it and
      marks anew if it has a trigger. */
  function MarkTime(p: Policy, turns: seq<Turn>, k: nat): Option<real>
    requires k <= |turns|
  {
    if k == 0 then None
    else
      var mark, t := MarkTime(p, turns, k - 1), turns[k - 1];
      if mark.Some? && t.at < mark.value + p.ttl then mark
      else if Fires(p, t) then Some(t.at)
      else None
  }

  /** Turn `k` is within the time to live of the mark kept. */
  predicate WithinMark(p: Policy, turns: seq<Turn>, k: nat)
    requires k < |turns|
  {
    var mark := MarkTime(p, turns, k);
    mark.Some? && turns[k].at < mark.value + p.ttl
  }

  lemma {:induction false} EntryIsTheMark(id: string, p: Policy, turns: seq<Turn>, k: nat)
    requires id != "" && p.never && k <= |turns|
    ensures var store, mark := StoreAfter(id, p, turns[..k]), MarkTime(p, turns, k);
            (id in store <==> mark.Some?) && (id in store ==> store[id] == Mark(mark.value, mark.value + p.ttl))
  {
    if k == 0 {
      assert turns[..0] == [];
    } else {
      assert turns[..k][..k - 1] == turns[..k - 1];
      EntryIsTheMark(id, p, turns, k - 1);
    }
  }

  /** Under "never" a turn is sticky exactly within the time to live of the mark
      kept; staying sticky does not extend it. */
  lemma {:induction false} NeverStickyIff(id: string, p: Policy, turns: seq<Turn>, k: nat)
    requires id != "" && p.never && k < |turns|
    ensures StickyAt(id, p, turns, k) <==> WithinMark(p, turns, k)
  {
    EntryIsTheMark(id, p, turns, k);
  }

  /** The turn is sticky by its policy and the history. */
  predicate StickyByHistory(p: Policy, turns: seq<Turn>, k: nat)
    requires k < |turns|
  {
    if p.never then WithinMark(p, turns, k) else FiredAndCarried(p, turns, k, k + 1)
  }

  /** The decision on every turn, told from the requests alone: sticky first, then
      the hints, then the first trigger that the turn has. */
  lemma {:induction false} DecisionMeaning(id: string, p: Policy, turns: seq<Turn>, k: nat)
    requires id != "" && k < |turns|
    ensures var t := turns[k];
            Resolved(StoreAfter(id, p, turns[..k]), id, p, t).0 ==
            if StickyByHistory(p, turns, k) then Decision(true, StickyTurn)
            else if t.hint == Some("true") || t.hint == Some("auto:high") then Decision(true, Hint)
            else if t.hint == Some("auto:low") then Decision(false, NoTrigger)
            else if t.complexity.Some? && t.complexity.value >= p.threshold then Decision(true, Complexity)
            else if t.unhealthy then Decision(true, Unhealthy)
            else if t.failure then Decision(true, FailureSignal)
            else Decision(false, NoTrigger)
  {
    if p.never {
      NeverStickyIff(id, p, turns, k);
    } else {
      StickyIffCarriedOn(id, p, turns, k);
    }
  }

  /** Which turns are escalated under either policy. */
  lemma {:induction false} EscalatedIff(id: string, p: Policy, turns: seq<Turn>, k: nat)
    requires id != "" && k < |turns|
    ensures Resolved(StoreAfter(id, p, turns[..k]), id, p, turns[k]).0.escalate <==>
            StickyByHistory(p, turns, k) || Fires(p, turns[k])
  {
    DecisionMeaning(id, p, turns, k);
  }

  /** Without a session nothing is sticky and nothing is stored. */
  lemma {:induction false} NoSessionNoState(store: Store, p: Policy, t: Turn)
    requires "" !in store
    ensures var (d, after) := Resolved(store, "", p, t);
            after == store && d.trigger != StickyTurn && (d.escalate <==> Fires(p, t))
  {
    assert store - {""} == store;
  }

  /** Under either policy, the hint "auto:low" keeps a turn from being escalated
      exactly when the session is not sticky already; it resets nothing. */
  lemma {:induction false} LowHintDoesNotReset(id: string, p: Policy, turns: seq<Turn>, k: nat)
    requires id != "" && k < |turns| && turns[k].hint == Some("auto:low")
    ensures var (d, after) := Resolved(StoreAfter(id, p, turns[..k]), id, p, turns[k]);
            (d.escalate <==> StickyByHistory(p, turns, k)) && (d.escalate <==> id in after)
  {
    DecisionMeaning(id, p, turns, k);
  }

  // ---- sessions do not affect each other

  datatype Request = Request(id: string, policy: Policy, turn: Turn)

  function StoreOf(rs: seq<Request>): Store {
    if rs == [] then map[]
    else
      var r := rs[|rs| - 1];
      Resolved(StoreOf(rs[..|rs| - 1]), r.id, r.policy, r.turn).1
  }

  function OfSession(rs: seq<Request>, id: string): seq<Request> {
    if rs == [] then []
    else
      var r := rs[|rs| - 1];
      OfSession(rs[..|rs| - 1], id) + if r.id == id then [r] else []
  }

  predicate SameEntry(a: Store, b: Store, id: string) {
    (id in a <==> id in b) && (id in a ==> a[id] == b[id])
  }

  lemma {:induction false} ResolvedElsewhere(a: Store, id: string, r: Request)
    requires r.id != id
    ensures SameEntry(a, Resolved(a, r.id, r.policy, r.turn).1, id)
  {}

  /** In any interleaving a session's entry is what its own requests make it. */
  lemma {:induction false} SessionsAreIndependent(rs: seq<Request>, id: string)
    ensures SameEntry(StoreOf(rs), StoreOf(OfSession(rs, id)), id)
  {
    if rs != [] {
      var front, r := rs[..|rs| - 1], rs[|rs| - 1];
      SessionsAreIndependent(front, id);
      if r.id == id {
        var own := OfSession(rs, id);
        assert own[..|own| - 1] == OfSession(front, id);
      } else {
        assert OfSession(rs, id) == OfSession(front, id);
        ResolvedElsewhere(StoreOf(front), id, r);
      }
    }
  }

  function TurnsOf(rs: seq<Request>): (turns: seq<Turn>)
    ensures |turns| == |rs|
  {
    if rs == [] then [] else TurnsOf(rs[..|rs| - 1]) + [rs[|rs| - 1].turn]
  }

  /** Under one policy that is what the laws of a single session say of its turns. */
  lemma {:induction false} EntryIsOfOwnTurns(rs: seq<Request>, id: string, p: Policy)
    requires forall r :: r in OfSession(rs, id) ==> r.policy == p
    ensures SameEntry(StoreOf(rs), StoreAfter(id, p, TurnsOf(OfSession(rs, id))), id)
  {
    if rs != [] {
      var front, r := rs[..|rs| - 1], rs[|rs| - 1];
      EntryIsOfOwnTurns(front, id, p);
      if r.id == id {
        var own := OfSession(rs, id);
        assert own[..|own| - 1] == OfSession(front, id) && own[|own| - 1] in own;
        assert TurnsOf(own)[..|own| - 1] == TurnsOf(OfSession(front, id));
      } else {
        assert OfSession(rs, id) == OfSession(front, id);
        ResolvedElsewhere(StoreOf(front), id, r);
      }
    }
  }
}
