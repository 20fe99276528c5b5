/** From events to the usage table: what the buffer's flushes write is what the
    rows hold. */
module UsageAccounts {
  import opened Options
  import opened Metering
  import MeteringProtocol
  import UsageWriter

  /** The keys of a virtual key and day. */
  function KeysOfDay(vkey: int, day: int): Key -> bool {
    (k: Key) => k.vkey == vkey && UsageWriter.DayOf(k) == day
  }

  function Aggs(qs: seq<MeteringProtocol.Queued>): seq<Agg> {
    if qs == [] then [] else Aggs(qs[..|qs| - 1]) + [qs[|qs| - 1].agg]
  }

  /** What an event counts for: what the provider reported, a missing number being
      zero, and one token each where it reported nothing. */
  function Counted(e: Event, q: Quantity): nat {
    var silent := e.usage == None || e.usage == Some(map[]);
    match q
    case InputTokens =>
      if silent then 1 else if "input_tokens" in e.usage.value then e.usage.value["input_tokens"] else 0
    case OutputTokens =>
      if silent then 1 else if "output_tokens" in e.usage.value then e.usage.value["output_tokens"] else 0
    case Requests => 1
    case TokensSaved => e.saved
  }

  /** What the events of a virtual key within a day count for together; a day has
      86 400 seconds, and times are in microseconds. */
  function Recorded(es: seq<Event>, vkey: int, day: int, q: Quantity): nat {
    if es == [] then 0
    else
      var e := es[|es| - 1];
      Recorded(es[..|es| - 1], vkey, day, q) +
      if e.vkey == vkey && 86_400_000_000 * day <= e.time < 86_400_000_000 * (day + 1) then Counted(e, q) else 0
  }

  lemma {:induction false} SpentIsRecorded(es: seq<Event>, vkey: int, day: int, q: Quantity)
    ensures Spent(es, KeysOfDay(vkey, day), q) == Recorded(es, vkey, day, q)
  {
    if es != [] {
      var e := es[|es| - 1];
      SpentIsRecorded(es[..|es| - 1], vkey, day, q);
      DayOfTime(e.time, day);
      assert KeysOfDay(vkey, day)(KeyOf(e)) <==> e.vkey == vkey && UsageWriter.DayOf(KeyOf(e)) == day;
    }
  }

  lemma {:induction false} DayOfTime(time: int, day: int)
    ensures time / 60_000_000 / 1440 == day <==> 86_400_000_000 * day <= time < 86_400_000_000 * (day + 1)
  {
    var minute := time / 60_000_000;
    assert 60_000_000 * minute <= time < 60_000_000 * (minute + 1);
    assert 1440 * (minute / 1440) <= minute < 1440 * (minute / 1440 + 1);
  }

  /** What the row of a virtual key and day says, if there is one. */
  function InTable(table: seq<UsageWriter.Row>, vkey: int, day: int, q: Quantity): nat {
    var i := UsageWriter.Find(table, vkey, day);
    if i < |table| then UsageWriter.Get(table[i], q) else 0
  }

  lemma {:induction false} SumOfDayStep(aggs: seq<Agg>, a: Agg, vkey: int, day: int, q: Quantity)
    ensures UsageWriter.Sum(UsageWriter.OfDay(aggs + [a], vkey, day), q) ==
            UsageWriter.Sum(UsageWriter.OfDay(aggs, vkey, day), q) + if KeysOfDay(vkey, day)(a.key) then a.Get(q) else 0
  {
    var was := UsageWriter.OfDay(aggs, vkey, day);
    UsageWriter.OfDayAppend(aggs, a, vkey, day);
    assert (was + [a])[..|was|] == was;
  }

  lemma {:induction false} OwedIsSum(qs: seq<MeteringProtocol.Queued>, vkey: int, day: int, q: Quantity)
    ensures MeteringProtocol.Owed(qs, KeysOfDay(vkey, day), q) ==
            UsageWriter.Sum(UsageWriter.OfDay(Aggs(qs), vkey, day), q)
  {
    if qs != [] {
      OwedIsSum(qs[..|qs| - 1], vkey, day, q);
      SumOfDayStep(Aggs(qs[..|qs| - 1]), qs[|qs| - 1].agg, vkey, day, q);
    }
  }

  lemma {:induction false} InTableIsSum(aggs: seq<Agg>, vkey: int, day: int, q: Quantity)
    ensures InTable(UsageWriter.Table(aggs), vkey, day, q) == UsageWriter.Sum(UsageWriter.OfDay(aggs, vkey, day), q)
  {
    UsageWriter.TableHoldsAll(aggs);
    var table := UsageWriter.Table(aggs);
    var i := UsageWriter.Find(table, vkey, day);
    if i < |table| {
      assert UsageWriter.Holds(table[i], UsageWriter.OfDay(aggs, vkey, day));
    } else {
      assert UsageWriter.OfDay(aggs, vkey, day) == [];
    }
  }

  /** In every interleaving, per virtual key, day and quantity: what the events
      recorded count for is what the row of the day says, and what is in flight,
      waiting, buffered or dropped. */
  lemma {:induction false} TableKeepsAccount(steps: seq<MeteringProtocol.Step>, bound: nat, vkey: int, day: int,
                                             q: Quantity)
    ensures var s, ours := MeteringProtocol.Run(steps, bound), KeysOfDay(vkey, day);
            Recorded(s.recorded, vkey, day, q) ==
            InTable(UsageWriter.Table(Aggs(s.written)), vkey, day, q) + MeteringProtocol.InFlight(s.flights, ours, q) +
            MeteringProtocol.Owed(s.pending, ours, q) + Recorded(s.buffer, vkey, day, q) +
            MeteringProtocol.Owed(s.dropped, ours, q)
  {
    var s := MeteringProtocol.Run(steps, bound);
    MeteringProtocol.NothingIsLost(steps, bound, KeysOfDay(vkey, day), q);
    SpentIsRecorded(s.recorded, vkey, day, q);
    SpentIsRecorded(s.buffer, vkey, day, q);
    OwedIsSum(s.written, vkey, day, q);
    InTableIsSum(Aggs(s.written), vkey, day, q);
  }
}
