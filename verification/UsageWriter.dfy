/** The writer behind the metering buffer: one token-usage row per virtual key and
    day, with a per-model breakdown, created or updated by each aggregate. */
module UsageWriter {
  import opened Options
  import opened Text
  import opened Totals
  import opened Metering

  datatype Tokens = Tokens(input: nat, output: nat)

  datatype Row = Row(vkey: int, day: int, input: nat, output: nat, requests: nat, saved: nat,
                     breakdown: map<string, Tokens>, estimated: bool, cacheStatus: Option<string>)

  function DayOf(k: Key): int {
    k.minute / 1440
  }

  /** Different models can share a breakdown key. */
  function ModelKey(k: Key): string {
    k.provider + "_" + ReplaceAll(Exactly, k.model, "-", "_")
  }

  lemma {:induction false} UnderscoresText(model: string)
    ensures var r := ReplaceAll(Exactly, model, "-", "_");
            |r| == |model| && forall i :: 0 <= i < |r| ==> r[i] == if model[i] == '-' then '_' else model[i]
  {
    if model != "" {
      UnderscoresText(model[1..]);
      MatchHead(Exactly, "-", model);
      assert MatchesAt(Exactly, "-"[1..], model[1..], 0);
    }
  }

  /** The breakdown key: the provider, and the model with underscores for hyphens. */
  lemma {:induction false} ModelKeyText(k: Key)
    ensures var r, n := ModelKey(k), |k.provider|;
            && |r| == n + 1 + |k.model| && r[..n] == k.provider && r[n] == '_'
            && forall i :: 0 <= i < |k.model| ==> r[n + 1 + i] == if k.model[i] == '-' then '_' else k.model[i]
  {
    UnderscoresText(k.model);
  }

  /** Python's `a or b` on optional strings. */
  function Either(a: Option<string>, b: Option<string>): Option<string> {
    if a.Some? && a.value != "" then a else b
  }

  function Raised(b: map<string, Tokens>, m: string, a: Agg): map<string, Tokens> {
    var t := if m in b then b[m] else Tokens(0, 0);
    b[m := Tokens(t.input + a.input, t.output + a.output)]
  }

  function NewRow(a: Agg): Row {
    Row(a.key.vkey, DayOf(a.key), a.input, a.output, a.requests, a.saved,
        map[ModelKey(a.key) := Tokens(a.input, a.output)], a.estimated, a.cacheStatus)
  }

  function Updated(r: Row, a: Agg): Row {
    Row(r.vkey, r.day, r.input + a.input, r.output + a.output, r.requests + a.requests, r.saved + a.saved,
        Raised(r.breakdown, ModelKey(a.key), a), r.estimated || a.estimated, Either(a.cacheStatus, r.cacheStatus))
  }

  /** The first row of a virtual key and day, or the number of rows. */
  function Find(table: seq<Row>, vkey: int, day: int): (i: nat)
    ensures i <= |table| && (i < |table| ==> table[i].vkey == vkey && table[i].day == day)
    ensures forall j :: 0 <= j < i ==> table[j].vkey != vkey || table[j].day != day
  {
    if table == [] || (table[0].vkey == vkey && table[0].day == day) then 0 else 1 + Find(table[1..], vkey, day)
  }

  function Written(table: seq<Row>, a: Agg): seq<Row> {
    var i := Find(table, a.key.vkey, DayOf(a.key));
    if i < |table| then table[i := Updated(table[i], a)] else table + [NewRow(a)]
  }

  class PenguinDALUsageWriter {
    var table: seq<Row>

    constructor ()
      ensures table == []
    {
      table := [];
    }

    method WriteAggregatedRow(a: Agg)
      modifies this
      ensures table == Written(old(table), a)
    {
      var i := Find(table, a.key.vkey, DayOf(a.key));
      if i < |table| {
        var r := table[i];
        var b := r.breakdown;
        var m := ModelKey(a.key);
        if m !in b {
          b := b[m := Tokens(0, 0)];
        }
        b := b[m := b[m].(input := b[m].input + a.input)];
        b := b[m := b[m].(output := b[m].output + a.output)];
        assert b == Raised(r.breakdown, m, a);
        table := table[i := Row(r.vkey, r.day, r.input + a.input, r.output + a.output, r.requests + a.requests,
                                r.saved + a.saved, b, r.estimated || a.estimated,
                                Either(a.cacheStatus, r.cacheStatus))];
      } else {
        table := table + [NewRow(a)];
      }
    }
  }

  // ---- the table is the sum of what was written

  function Table(aggs: seq<Agg>): seq<Row> {
    if aggs == [] then [] else Written(Table(aggs[..|aggs| - 1]), aggs[|aggs| - 1])
  }

  predicate OneRowEach(table: seq<Row>) {
    forall i, j :: 0 <= i < j < |table| ==> table[i].vkey != table[j].vkey || table[i].day != table[j].day
  }

  function Get(r: Row, q: Quantity): nat {
    match q
    case InputTokens => r.input
    case OutputTokens => r.output
    case Requests => r.requests
    case TokensSaved => r.saved
  }

  /** The aggregates of a virtual key and day. */
  function OfDay(aggs: seq<Agg>, vkey: int, day: int): seq<Agg> {
    if aggs == [] then []
    else
      var a := aggs[|aggs| - 1];
      OfDay(aggs[..|aggs| - 1], vkey, day) + if a.key.vkey == vkey && DayOf(a.key) == day then [a] else []
  }

  function Sum(aggs: seq<Agg>, q: Quantity): nat {
    if aggs == [] then 0 else Sum(aggs[..|aggs| - 1], q) + aggs[|aggs| - 1].Get(q)
  }

  function SumOfModel(aggs: seq<Agg>, m: string, q: Quantity): nat {
    if aggs == [] then 0
    else
      var a := aggs[|aggs| - 1];
      SumOfModel(aggs[..|aggs| - 1], m, q) + if ModelKey(a.key) == m then a.Get(q) else 0
  }

  function Inputs(b: map<string, Tokens>): map<string, nat> {
    map m | m in b :: b[m].input
  }

  function Outputs(b: map<string, Tokens>): map<string, nat> {
    map m | m in b :: b[m].output
  }

  function At(b: map<string, Tokens>, m: string): Tokens {
    if m in b then b[m] else Tokens(0, 0)
  }

  predicate AnyEstimated(aggs: seq<Agg>) {
    exists i :: 0 <= i < |aggs| && aggs[i].estimated
  }

  /** The last status that is not empty; if there is none, the first status. */
  function LastStatus(aggs: seq<Agg>): Option<string>
    requires aggs != []
  {
    var s := aggs[|aggs| - 1].cacheStatus;
    if |aggs| == 1 || (s.Some? && s.value != "") then s else LastStatus(aggs[..|aggs| - 1])
  }

  /** The row holds exactly these aggregates. */
  ghost predicate Holds(r: Row, aggs: seq<Agg>) {
    && aggs != [] && r.cacheStatus == LastStatus(aggs)
    && (forall q: Quantity :: Get(r, q) == Sum(aggs, q))
    && (forall m :: At(r.breakdown, m) == Tokens(SumOfModel(aggs, m, InputTokens), SumOfModel(aggs, m, OutputTokens)))
    && Total(Inputs(r.breakdown)) == r.input && Total(Outputs(r.breakdown)) == r.output
    && (r.estimated <==> AnyEstimated(aggs))
  }

  lemma {:induction false} RaisedTotals(b: map<string, Tokens>, m: string, a: Agg)
    ensures Total(Inputs(Raised(b, m, a))) == Total(Inputs(b)) + a.input
    ensures Total(Outputs(Raised(b, m, a))) == Total(Outputs(b)) + a.output
  {
    var t := At(b, m);
    assert Inputs(Raised(b, m, a)) == Inputs(b)[m := t.input + a.input];
    assert Outputs(Raised(b, m, a)) == Outputs(b)[m := t.output + a.output];
    TotalUpdate(Inputs(b), m, t.input + a.input);
    TotalUpdate(Outputs(b), m, t.output + a.output);
  }

  lemma {:induction false} AppendSums(aggs: seq<Agg>, a: Agg)
    ensures forall q: Quantity :: Sum(aggs + [a], q) == Sum(aggs, q) + a.Get(q)
    ensures forall m, q: Quantity :: SumOfModel(aggs + [a], m, q) ==
              SumOfModel(aggs, m, q) + if ModelKey(a.key) == m then a.Get(q) else 0
    ensures AnyEstimated(aggs + [a]) <==> AnyEstimated(aggs) || a.estimated
  {
    var more := aggs + [a];
    assert more[..|more| - 1] == aggs && more[|aggs|] == a;
    assert forall i :: 0 <= i < |aggs| ==> more[i] == aggs[i];
  }

  lemma {:induction false} UpdatedHolds(r: Row, aggs: seq<Agg>, a: Agg)
    requires Holds(r, aggs)
    ensures Holds(Updated(r, a), aggs + [a])
  {
    AppendSums(aggs, a);
    RaisedTotals(r.breakdown, ModelKey(a.key), a);
  }

  lemma {:induction false} NewRowHolds(a: Agg)
    ensures Holds(NewRow(a), [a])
  {
    var none: seq<Agg> := [];
    AppendSums(none, a);
    assert none + [a] == [a] && !AnyEstimated(none);
    assert forall q: Quantity :: Sum(none, q) == 0;
    assert forall m, q: Quantity :: SumOfModel(none, m, q) == 0;
    NewBreakdown(a);
  }

  lemma {:induction false} NewBreakdown(a: Agg)
    ensures Total(Inputs(NewRow(a).breakdown)) == a.input && Total(Outputs(NewRow(a).breakdown)) == a.output
  {
    var empty: map<string, Tokens> := map[];
    assert Raised(empty, ModelKey(a.key), a) == NewRow(a).breakdown;
    RaisedTotals(empty, ModelKey(a.key), a);
    assert Inputs(empty) == map[] && Outputs(empty) == map[];
  }

  lemma {:induction false} OfDayAppend(aggs: seq<Agg>, a: Agg, vkey: int, day: int)
    ensures OfDay(aggs + [a], vkey, day) ==
            if a.key.vkey == vkey && DayOf(a.key) == day then OfDay(aggs, vkey, day) + [a] else OfDay(aggs, vkey, day)
  {
    assert (aggs + [a])[..|aggs|] == aggs;
  }

  predicate Same(r: Row, k: Key) {
    r.vkey == k.vkey && r.day == DayOf(k)
  }

  lemma {:induction false} WrittenKeepsRows(was: seq<Row>, a: Agg)
    requires OneRowEach(was)
    ensures var now, at := Written(was, a), Find(was, a.key.vkey, DayOf(a.key));
            && OneRowEach(now) && at < |now| && Same(now[at], a.key) && |was| <= |now|
            && (forall i :: 0 <= i < |now| && i != at ==> i < |was| && now[i] == was[i] && !Same(now[i], a.key))
  {}

  lemma {:induction false} WrittenRowHolds(was: seq<Row>, aggs: seq<Agg>, a: Agg)
    requires OneRowEach(was)
    requires var at := Find(was, a.key.vkey, DayOf(a.key));
             if at < |was| then Holds(was[at], OfDay(aggs, a.key.vkey, DayOf(a.key)))
             else OfDay(aggs, a.key.vkey, DayOf(a.key)) == []
    ensures var at := Find(was, a.key.vkey, DayOf(a.key));
            Holds(Written(was, a)[at], OfDay(aggs + [a], a.key.vkey, DayOf(a.key)))
  {
    var at := Find(was, a.key.vkey, DayOf(a.key));
    OfDayAppend(aggs, a, a.key.vkey, DayOf(a.key));
    if at < |was| {
      UpdatedHolds(was[at], OfDay(aggs, a.key.vkey, DayOf(a.key)), a);
    } else {
      NewRowHolds(a);
      assert [] + [a] == [a];
    }
  }

  lemma {:induction false} NotFound(table: seq<Row>, vkey: int, day: int, j: nat)
    requires j < |table| && table[j].vkey == vkey && table[j].day == day
    ensures Find(table, vkey, day) < |table|
  {}

  lemma {:induction false} RowOfTable(aggs: seq<Agg>, i: nat)
    requires i < |Table(aggs)|
    ensures Holds(Table(aggs)[i], OfDay(aggs, Table(aggs)[i].vkey, Table(aggs)[i].day))
  {
    var front, a := aggs[..|aggs| - 1], aggs[|aggs| - 1];
    var was, now := Table(front), Table(aggs);
    var at := Find(was, a.key.vkey, DayOf(a.key));
    assert aggs == front + [a];
    OneRowPerDay(front);
    WrittenKeepsRows(was, a);
    if i == at {
      if at < |was| {
        RowOfTable(front, at);
      } else {
        NoRowNoAggregate(front, a.key.vkey, DayOf(a.key));
      }
      WrittenRowHolds(was, front, a);
    } else {
      RowOfTable(front, i);
      OfDayAppend(front, a, now[i].vkey, now[i].day);
    }
  }

  lemma {:induction false} NoRowNoAggregate(aggs: seq<Agg>, vkey: int, day: int)
    requires Find(Table(aggs), vkey, day) == |Table(aggs)|
    ensures OfDay(aggs, vkey, day) == []
  {
    if aggs != [] {
      var front, a := aggs[..|aggs| - 1], aggs[|aggs| - 1];
      var was, now := Table(front), Table(aggs);
      OneRowPerDay(front);
      WrittenKeepsRows(was, a);
      var j := Find(was, vkey, day);
      if j < |was| {
        NotFound(now, vkey, day, j);
      }
      NoRowNoAggregate(front, vkey, day);
      var at := Find(was, a.key.vkey, DayOf(a.key));
      if now[at].vkey == vkey && now[at].day == day {
        NotFound(now, vkey, day, at);
      }
    }
  }

  lemma {:induction false} OneRowPerDay(aggs: seq<Agg>)
    ensures OneRowEach(Table(aggs))
  {
    if aggs != [] {
      OneRowPerDay(aggs[..|aggs| - 1]);
      WrittenKeepsRows(Table(aggs[..|aggs| - 1]), aggs[|aggs| - 1]);
    }
  }

  /** For any sequence of writes there is one row per virtual key and day, each
      row holds exactly that day's aggregates, and every aggregate is in a row. */
  lemma {:induction false} TableHoldsAll(aggs: seq<Agg>)
    ensures OneRowEach(Table(aggs))
    ensures forall i :: 0 <= i < |Table(aggs)| ==>
              Holds(Table(aggs)[i], OfDay(aggs, Table(aggs)[i].vkey, Table(aggs)[i].day))
    ensures forall vkey, day :: Find(Table(aggs), vkey, day) == |Table(aggs)| ==> OfDay(aggs, vkey, day) == []
  {
    OneRowPerDay(aggs);
    forall i | 0 <= i < |Table(aggs)|
      ensures Holds(Table(aggs)[i], OfDay(aggs, Table(aggs)[i].vkey, Table(aggs)[i].day))
    {
      RowOfTable(aggs, i);
    }
    forall vkey, day | Find(Table(aggs), vkey, day) == |Table(aggs)| ensures OfDay(aggs, vkey, day) == [] {
      NoRowNoAggregate(aggs, vkey, day);
    }
  }

  /** A row once marked as estimated stays so, whatever is written later. */
  lemma {:induction false} EstimatedStays(aggs: seq<Agg>, a: Agg, i: nat)
    requires i < |Table(aggs)| && Table(aggs)[i].estimated
    ensures i < |Table(aggs + [a])| && Table(aggs + [a])[i].estimated
  {
    assert (aggs + [a])[..|aggs|] == aggs;
  }

  function TableTotal(table: seq<Row>, q: Quantity): nat {
    if table == [] then 0 else TableTotal(table[..|table| - 1], q) + Get(table[|table| - 1], q)
  }

  lemma {:induction false} TableUpdate(table: seq<Row>, i: nat, r: Row, q: Quantity)
    requires i < |table|
    ensures TableTotal(table[i := r], q) + Get(table[i], q) == TableTotal(table, q) + Get(r, q)
  {
    var n := |table| - 1;
    if i < n {
      TableUpdate(table[..n], i, r, q);
      assert table[i := r][..n] == table[..n][i := r];
    } else {
      assert table[i := r][..n] == table[..n];
    }
  }

  /** The table's totals are the totals of everything written. */
  lemma {:induction false} TableTotals(aggs: seq<Agg>, q: Quantity)
    ensures TableTotal(Table(aggs), q) == Sum(aggs, q)
  {
    if aggs != [] {
      var front, a := aggs[..|aggs| - 1], aggs[|aggs| - 1];
      var was := Table(front);
      TableTotals(front, q);
      var i := Find(was, a.key.vkey, DayOf(a.key));
      if i < |was| {
        TableUpdate(was, i, Updated(was[i], a), q);
      } else {
        assert (was + [NewRow(a)])[..|was|] == was;
      }
    }
  }
}
