/** Usage metering: events are buffered, aggregated per minute at each flush, and
    written; aggregates whose write fails wait in a bounded retry queue. */
module Metering {
  import opened Options

  /** The time is in microseconds. An absent or empty usage dictionary means that
      the provider did not report. */
  datatype Event = Event(vkey: int, model: string, provider: string, time: int,
                         usage: Option<map<string, nat>>, cacheStatus: Option<string>, saved: nat)

  datatype Key = Key(vkey: int, model: string, provider: string, minute: int)

  datatype Quantity = InputTokens | OutputTokens | Requests | TokensSaved

  const MINUTE := 60_000_000

  function KeyOf(e: Event): Key {
    Key(e.vkey, e.model, e.provider, e.time / MINUTE)
  }

  predicate Reported(e: Event) {
    e.usage.Some? && e.usage.value != map[]
  }

  /** Tokens come from the report, where a missing entry is zero, or are
      estimated as one each. */
  function TokensOf(e: Event, field: string): nat {
    if !Reported(e) then 1 else if field in e.usage.value then e.usage.value[field] else 0
  }

  function Amount(e: Event, q: Quantity): nat {
    match q
    case InputTokens => TokensOf(e, "input_tokens")
    case OutputTokens => TokensOf(e, "output_tokens")
    case Requests => 1
    case TokensSaved => e.saved
  }

  datatype Agg = Agg(key: Key, input: nat, output: nat, requests: nat, saved: nat,
                     estimated: bool, cacheStatus: Option<string>, events: seq<Event>)
  {
    function Get(q: Quantity): nat {
      match q
      case InputTokens => input
      case OutputTokens => output
      case Requests => requests
      case TokensSaved => saved
    }
  }

  function Fresh(k: Key): Agg {
    Agg(k, 0, 0, 0, 0, false, None, [])
  }

  function Add(a: Agg, e: Event): Agg {
    a.(input := a.input + TokensOf(e, "input_tokens"),
       output := a.output + TokensOf(e, "output_tokens"),
       requests := a.requests + 1,
       saved := a.saved + e.saved,
       estimated := a.estimated || !Reported(e),
       cacheStatus := if e.cacheStatus != None then e.cacheStatus else a.cacheStatus,
       events := a.events + [e])
  }

  /** The dictionary of aggregates in insertion order. */
  function Absorb(aggs: seq<Agg>, e: Event): seq<Agg> {
    var i := IndexOf(aggs, KeyOf(e));
    if i < |aggs| then aggs[i := Add(aggs[i], e)] else aggs + [Add(Fresh(KeyOf(e)), e)]
  }

  function Aggregated(es: seq<Event>): seq<Agg> {
    if es == [] then [] else Absorb(Aggregated(es[..|es| - 1]), es[|es| - 1])
  }

  /** Where an aggregate with the key is, or the length. */
  function IndexOf(aggs: seq<Agg>, k: Key): (i: nat)
    ensures i <= |aggs| && (i < |aggs| ==> aggs[i].key == k)
    ensures forall j :: 0 <= j < i ==> aggs[j].key != k
  {
    if aggs == [] || aggs[0].key == k then 0 else 1 + IndexOf(aggs[1..], k)
  }

  // ---- the buffer object

  /** What exceeds the bound at the front of the queue, and what stays. */
  function Overflow<T>(q: seq<T>, bound: nat): seq<T> {
    if |q| > bound then q[..|q| - bound] else []
  }

  function Newest<T>(q: seq<T>, bound: nat): seq<T> {
    if |q| > bound then q[|q| - bound..] else q
  }

  /** The aggregates whose write ends as wanted when all are tried in turn;
      `succeeds(i)` is the fate of the `i`-th write. */
  function Tried(aggs: seq<Agg>, succeeds: nat -> bool, want: bool): seq<Agg> {
    if aggs == [] then []
    else
      var n := |aggs| - 1;
      Tried(aggs[..n], succeeds, want) + if succeeds(n) == want then [aggs[n]] else []
  }

  class MeteringBuffer {
    var buffer: seq<Event>
    var pending: seq<Agg>
    const maxPending: nat

    constructor (maxPending: nat)
      ensures buffer == [] && pending == [] && this.maxPending == maxPending
    {
      buffer, pending := [], [];
      this.maxPending := maxPending;
    }

    method Record(e: Event)
      modifies this`buffer
      ensures buffer == old(buffer) + [e]
    {
      buffer := buffer + [e];
    }

    /** The first locked section of a flush. */
    method TakeAll() returns (events: seq<Event>, retries: seq<Agg>)
      modifies this
      ensures events == old(buffer) && retries == old(pending) && buffer == [] && pending == []
    {
      events, retries := buffer, pending;
      buffer, pending := [], [];
    }

    /** The second locked section: failed aggregates go behind those already
        waiting, and the front is dropped when the bound is exceeded. */
    method Requeue(failed: seq<Agg>) returns (dropped: seq<Agg>)
      modifies this`pending
      ensures pending == Newest(old(pending) + failed, maxPending)
      ensures dropped == Overflow(old(pending) + failed, maxPending)
    {
      pending := pending + failed;
      var overflow := |pending| - maxPending;
      dropped := [];
      if overflow > 0 {
        dropped := pending[..overflow];
        pending := pending[overflow..];
      }
    }

    method AggregateEvents(events: seq<Event>) returns (aggs: seq<Agg>)
      ensures aggs == Aggregated(events)
    {
      aggs := [];
      for i := 0 to |events|
        invariant aggs == Aggregated(events[..i])
      {
        var e := events[i];
        var at := IndexOf(aggs, KeyOf(e));
        if at == |aggs| {
          aggs := aggs + [Fresh(KeyOf(e))];
        }
        aggs := aggs[at := Add(aggs[at], e)];
        assert events[..i + 1][..i] == events[..i];
      }
      assert events[..|events|] == events;
    }

    /** The writes of a flush, one aggregate after another. */
    method WriteEach(tried: seq<Agg>, succeeds: nat -> bool) returns (written: seq<Agg>, failed: seq<Agg>)
      ensures written == Tried(tried, succeeds, true) && failed == Tried(tried, succeeds, false)
    {
      written, failed := [], [];
      for i := 0 to |tried|
        invariant written == Tried(tried[..i], succeeds, true)
        invariant failed == Tried(tried[..i], succeeds, false)
      {
        assert tried[..i + 1][..i] == tried[..i];
        if succeeds(i) {
          written := written + [tried[i]];
        } else {
          failed := failed + [tried[i]];
        }
      }
      assert tried[..|tried|] == tried;
    }

    /** A flush that no other operation interrupts. */
    method Flush(succeeds: nat -> bool) returns (written: seq<Agg>, dropped: seq<Agg>)
      modifies this
      ensures buffer == []
      ensures var tried := old(pending) + Aggregated(old(buffer));
              && written == Tried(tried, succeeds, true)
              && pending == Newest(Tried(tried, succeeds, false), maxPending)
              && dropped == Overflow(Tried(tried, succeeds, false), maxPending)
    {
      var events, retries := TakeAll();
      var aggs := AggregateEvents(events);
      var failed: seq<Agg>;
      written, failed := WriteEach(retries + aggs, succeeds);
      dropped := [];
      if failed != [] {
        dropped := Requeue(failed);
        assert [] + failed == failed;
      }
    }
  }

  // ---- aggregation loses nothing

  /** What the events, or the aggregates, of some keys add up to. */
  function Spent(es: seq<Event>, of: Key -> bool, q: Quantity): nat {
    if es == [] then 0
    else
      var e := es[|es| - 1];
      Spent(es[..|es| - 1], of, q) + if of(KeyOf(e)) then Amount(e, q) else 0
  }

  function Billed(aggs: seq<Agg>, of: Key -> bool, q: Quantity): nat {
    if aggs == [] then 0
    else
      var a := aggs[|aggs| - 1];
      Billed(aggs[..|aggs| - 1], of, q) + if of(a.key) then a.Get(q) else 0
  }

  lemma {:induction false} BilledUpdate(aggs: seq<Agg>, i: nat, x: Agg, of: Key -> bool, q: Quantity)
    requires i < |aggs| && x.key == aggs[i].key
    ensures Billed(aggs[i := x], of, q) + (if of(x.key) then aggs[i].Get(q) else 0) ==
            Billed(aggs, of, q) + if of(x.key) then x.Get(q) else 0
  {
    var n := |aggs| - 1;
    if i < n {
      BilledUpdate(aggs[..n], i, x, of, q);
      assert aggs[i := x][..n] == aggs[..n][i := x];
    } else {
      assert aggs[i := x][..n] == aggs[..n];
    }
  }

  predicate DistinctKeys(aggs: seq<Agg>) {
    forall i, j :: 0 <= i < j < |aggs| ==> aggs[i].key != aggs[j].key
  }

  /** Each key has one aggregate, and the aggregates of any keys hold the sum of
      their events. */
  lemma {:induction false} AggregationConserves(es: seq<Event>, of: Key -> bool, q: Quantity)
    ensures DistinctKeys(Aggregated(es)) && Billed(Aggregated(es), of, q) == Spent(es, of, q)
  {
    KeysAreDistinct(es);
    if es != [] {
      AggregationConserves(es[..|es| - 1], of, q);
      AbsorbConserves(Aggregated(es[..|es| - 1]), es[|es| - 1], of, q);
    }
  }

  lemma {:induction false} KeysAreDistinct(es: seq<Event>)
    ensures DistinctKeys(Aggregated(es))
  {
    if es != [] {
      KeysAreDistinct(es[..|es| - 1]);
    }
  }

  lemma {:induction false} AbsorbConserves(aggs: seq<Agg>, e: Event, of: Key -> bool, q: Quantity)
    ensures Billed(Absorb(aggs, e), of, q) == Billed(aggs, of, q) + if of(KeyOf(e)) then Amount(e, q) else 0
  {
    var i := IndexOf(aggs, KeyOf(e));
    if i < |aggs| {
      BilledUpdate(aggs, i, Add(aggs[i], e), of, q);
    } else {
      var x := Add(Fresh(KeyOf(e)), e);
      assert (aggs + [x])[..|aggs|] == aggs;
    }
  }

  /** The last status reported for a key, and whether one of its events had to be
      estimated. */
  function LastStatus(es: seq<Event>, k: Key): Option<string> {
    if es == [] then None
    else
      var e := es[|es| - 1];
      if KeyOf(e) == k && e.cacheStatus != None then e.cacheStatus else LastStatus(es[..|es| - 1], k)
  }

  function EventsOf(es: seq<Event>, k: Key): seq<Event> {
    if es == [] then []
    else
      var e := es[|es| - 1];
      EventsOf(es[..|es| - 1], k) + if KeyOf(e) == k then [e] else []
  }

  predicate AnyEstimated(es: seq<Event>, k: Key) {
    exists i :: 0 <= i < |es| && KeyOf(es[i]) == k && !Reported(es[i])
  }

  lemma {:induction false} AggregateFlags(es: seq<Event>, i: nat)
    requires i < |Aggregated(es)|
    ensures var a := Aggregated(es)[i];
            && (a.estimated <==> AnyEstimated(es, a.key))
            && a.cacheStatus == LastStatus(es, a.key)
            && exists j :: 0 <= j < |es| && KeyOf(es[j]) == a.key
  {
    var n := |es| - 1;
    var front, e, before := es[..n], es[n], Aggregated(es[..n]);
    var a := Aggregated(es)[i];
    var at := IndexOf(before, KeyOf(e));
    assert es == front + [e];
    KeysAreDistinct(front);
    if i < |before| {
      AggregateFlags(front, i);
      assert AnyEstimated(es, a.key) <==> AnyEstimated(front, a.key) || (KeyOf(e) == a.key && !Reported(e)) by {
        assert forall j :: 0 <= j < n ==> es[j] == front[j];
      }
      if i != at {
        assert KeyOf(e) != a.key;
      }
      var j :| 0 <= j < |front| && KeyOf(front[j]) == a.key;
      assert KeyOf(es[j]) == a.key;
    } else {
      assert KeyOf(es[n]) == a.key;
      NoneBefore(front, a.key);
      assert forall j :: 0 <= j < n ==> es[j] == front[j];
    }
  }

  /** An aggregate keeps the events of its key, in order. */
  lemma {:induction false} AggregatesKeepEvents(es: seq<Event>, i: nat)
    requires i < |Aggregated(es)|
    ensures Aggregated(es)[i].events == EventsOf(es, Aggregated(es)[i].key)
  {
    var n := |es| - 1;
    var before, at := Aggregated(es[..n]), IndexOf(Aggregated(es[..n]), KeyOf(es[n]));
    KeysAreDistinct(es[..n]);
    if i < |before| {
      AggregatesKeepEvents(es[..n], i);
      assert i != at ==> before[i].key != KeyOf(es[n]);
    } else {
      NoneBefore(es[..n], KeyOf(es[n]));
    }
  }

  /** An aggregate's key is that of its events: their virtual key, model and
      provider, and the minute in which they were. */
  lemma {:induction false} EventsBelongToTheirAggregate(es: seq<Event>, i: nat, j: nat)
    requires i < |Aggregated(es)| && j < |Aggregated(es)[i].events|
    ensures var a := Aggregated(es)[i];
            var e := a.events[j];
            && e in es && a.key.vkey == e.vkey && a.key.model == e.model && a.key.provider == e.provider
            && 60_000_000 * a.key.minute <= e.time < 60_000_000 * (a.key.minute + 1)
  {
    AggregatesKeepEvents(es, i);
    EventsOfHaveTheKey(es, Aggregated(es)[i].key, j);
  }

  lemma {:induction false} EventsOfHaveTheKey(es: seq<Event>, k: Key, j: nat)
    requires j < |EventsOf(es, k)|
    ensures EventsOf(es, k)[j] in es && KeyOf(EventsOf(es, k)[j]) == k
  {
    var front := es[..|es| - 1];
    if j < |EventsOf(front, k)| {
      EventsOfHaveTheKey(front, k, j);
    }
  }

  /** Every aggregate tried ends up on exactly one side, in order, by the fate of
      its write. */
  lemma {:induction false} TriedSplits(aggs: seq<Agg>, a: Agg, succeeds: nat -> bool)
    ensures Tried([], succeeds, true) == Tried([], succeeds, false) == []
    ensures if succeeds(|aggs|) then
              && Tried(aggs + [a], succeeds, true) == Tried(aggs, succeeds, true) + [a]
              && Tried(aggs + [a], succeeds, false) == Tried(aggs, succeeds, false)
            else
              && Tried(aggs + [a], succeeds, true) == Tried(aggs, succeeds, true)
              && Tried(aggs + [a], succeeds, false) == Tried(aggs, succeeds, false) + [a]
  {
    assert (aggs + [a])[..|aggs|] == aggs;
  }

  /** A key with no aggregate has no event. */
  lemma {:induction false} NoneBefore(es: seq<Event>, k: Key)
    requires IndexOf(Aggregated(es), k) == |Aggregated(es)|
    ensures LastStatus(es, k) == None && EventsOf(es, k) == [] && forall j :: 0 <= j < |es| ==> KeyOf(es[j]) != k
  {
    if es != [] {
      var n := |es| - 1;
      var before, all := Aggregated(es[..n]), Aggregated(es);
      var at := IndexOf(before, KeyOf(es[n]));
      assert all[at].key == KeyOf(es[n]);
      forall j | 0 <= j < |before| ensures before[j].key != k {
        assert all[j].key == before[j].key;
      }
      NoneBefore(es[..n], k);
      assert forall j :: 0 <= j < n ==> es[j] == es[..n][j];
    }
  }
}
