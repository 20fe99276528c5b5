/** Flushes of the metering buffer as atomic steps, in any interleaving with
    recording and with each other: a flush takes everything under the lock,
    writes aggregate by aggregate, and requeues the failed ones under the lock. */
module MeteringProtocol {
  import opened Metering

  /** An aggregate with the number of the flush that made it. The number is not
      in the source; it orders aggregates by age. */
  datatype Queued = Queued(agg: Agg, born: nat)

  datatype Flight = Flight(todo: seq<Queued>, failed: seq<Queued>, running: bool)

  datatype State = State(recorded: seq<Event>, buffer: seq<Event>, pending: seq<Queued>, flights: seq<Flight>,
                         written: seq<Queued>, dropped: seq<Queued>, begun: nat)

  const START := State([], [], [], [], [], [], 0)

  datatype Step = Record(e: Event) | Begin | Write(i: nat, ok: bool) | End(i: nat)

  function Tag(aggs: seq<Agg>, born: nat): seq<Queued> {
    if aggs == [] then [] else Tag(aggs[..|aggs| - 1], born) + [Queued(aggs[|aggs| - 1], born)]
  }

  /** A step that is not possible leaves the state as it is. */
  function Next(s: State, step: Step, bound: nat): State {
    match step
    case Record(e) =>
      s.(recorded := s.recorded + [e], buffer := s.buffer + [e])
    case Begin =>
      if s.buffer == [] && s.pending == [] then s
      else
        s.(buffer := [], pending := [], begun := s.begun + 1,
           flights := s.flights + [Flight(s.pending + Tag(Aggregated(s.buffer), s.begun), [], true)])
    case Write(i, ok) =>
      if i >= |s.flights| || s.flights[i].todo == [] then s
      else
        var f := s.flights[i];
        if ok then s.(written := s.written + [f.todo[0]], flights := s.flights[i := f.(todo := f.todo[1..])])
        else s.(flights := s.flights[i := f.(todo := f.todo[1..], failed := f.failed + [f.todo[0]])])
    case End(i) =>
      if i >= |s.flights| || !s.flights[i].running || s.flights[i].todo != [] then s
      else
        var q := s.pending + s.flights[i].failed;
        s.(flights := s.flights[i := Flight([], [], false)],
           pending := Newest(q, bound), dropped := s.dropped + Overflow(q, bound))
  }

  function Run(steps: seq<Step>, bound: nat): State {
    if steps == [] then START else Next(Run(steps[..|steps| - 1], bound), steps[|steps| - 1], bound)
  }

  // ---- conservation

  function Owed(qs: seq<Queued>, of: Key -> bool, q: Quantity): nat {
    if qs == [] then 0
    else
      var a := qs[|qs| - 1].agg;
      Owed(qs[..|qs| - 1], of, q) + if of(a.key) then a.Get(q) else 0
  }

  function InFlight(fs: seq<Flight>, of: Key -> bool, q: Quantity): nat {
    if fs == [] then 0
    else
      var f := fs[|fs| - 1];
      InFlight(fs[..|fs| - 1], of, q) + Owed(f.todo, of, q) + Owed(f.failed, of, q)
  }

  lemma {:induction false} OwedConcat(a: seq<Queued>, b: seq<Queued>, of: Key -> bool, q: Quantity)
    ensures Owed(a + b, of, q) == Owed(a, of, q) + Owed(b, of, q)
  {
    if b == [] {
      assert a + b == a;
    } else {
      OwedConcat(a, b[..|b| - 1], of, q);
      assert (a + b)[..|a + b| - 1] == a + b[..|b| - 1];
    }
  }

  lemma {:induction false} OwedTagged(aggs: seq<Agg>, born: nat, of: Key -> bool, q: Quantity)
    ensures Owed(Tag(aggs, born), of, q) == Billed(aggs, of, q)
  {
    if aggs != [] {
      OwedTagged(aggs[..|aggs| - 1], born, of, q);
      OwedConcat(Tag(aggs[..|aggs| - 1], born), [Queued(aggs[|aggs| - 1], born)], of, q);
    }
  }

  lemma {:induction false} InFlightUpdate(fs: seq<Flight>, i: nat, f: Flight, of: Key -> bool, q: Quantity)
    requires i < |fs|
    ensures InFlight(fs[i := f], of, q) + Owed(fs[i].todo, of, q) + Owed(fs[i].failed, of, q) ==
            InFlight(fs, of, q) + Owed(f.todo, of, q) + Owed(f.failed, of, q)
  {
    var n := |fs| - 1;
    if i < n {
      InFlightUpdate(fs[..n], i, f, of, q);
      assert fs[i := f][..n] == fs[..n][i := f];
    } else {
      assert fs[i := f][..n] == fs[..n];
    }
  }

  /** Where everything recorded for some keys is. */
  function Accounted(s: State, of: Key -> bool, q: Quantity): nat {
    Owed(s.written, of, q) + InFlight(s.flights, of, q) + Owed(s.pending, of, q) +
    Spent(s.buffer, of, q) + Owed(s.dropped, of, q)
  }

  lemma {:induction false} TakenTogether(s: State, of: Key -> bool, q: Quantity)
    ensures Owed(s.pending + Tag(Aggregated(s.buffer), s.begun), of, q) ==
            Owed(s.pending, of, q) + Spent(s.buffer, of, q)
  {
    OwedConcat(s.pending, Tag(Aggregated(s.buffer), s.begun), of, q);
    OwedTagged(Aggregated(s.buffer), s.begun, of, q);
    AggregationConserves(s.buffer, of, q);
  }

  lemma {:induction false} BeginConserves(s: State, bound: nat, of: Key -> bool, q: Quantity)
    ensures Accounted(Next(s, Begin, bound), of, q) == Accounted(s, of, q)
  {
    if !(s.buffer == [] && s.pending == []) {
      var todo := s.pending + Tag(Aggregated(s.buffer), s.begun);
      TakenTogether(s, of, q);
      assert Spent([], of, q) == 0 && Owed([], of, q) == 0;
    }
  }

  lemma {:induction false} HeadOwed(qs: seq<Queued>, of: Key -> bool, q: Quantity)
    requires qs != []
    ensures Owed(qs, of, q) == Owed([qs[0]], of, q) + Owed(qs[1..], of, q)
  {
    assert qs == [qs[0]] + qs[1..];
    OwedConcat([qs[0]], qs[1..], of, q);
  }

  lemma {:induction false} WriteConserves(s: State, i: nat, ok: bool, bound: nat, of: Key -> bool, q: Quantity)
    ensures Accounted(Next(s, Write(i, ok), bound), of, q) == Accounted(s, of, q)
  {
    if i < |s.flights| && s.flights[i].todo != [] {
      var f := s.flights[i];
      HeadOwed(f.todo, of, q);
      if ok {
        InFlightUpdate(s.flights, i, f.(todo := f.todo[1..]), of, q);
        OwedConcat(s.written, [f.todo[0]], of, q);
      } else {
        InFlightUpdate(s.flights, i, f.(todo := f.todo[1..], failed := f.failed + [f.todo[0]]), of, q);
        OwedConcat(f.failed, [f.todo[0]], of, q);
      }
    }
  }

  lemma {:induction false} TrimConserves(queue: seq<Queued>, dropped: seq<Queued>, bound: nat, of: Key -> bool,
                                         q: Quantity)
    ensures Owed(Newest(queue, bound), of, q) + Owed(dropped + Overflow(queue, bound), of, q) ==
            Owed(queue, of, q) + Owed(dropped, of, q)
  {
    OwedConcat(Overflow(queue, bound), Newest(queue, bound), of, q);
    assert queue == Overflow(queue, bound) + Newest(queue, bound);
    OwedConcat(dropped, Overflow(queue, bound), of, q);
  }

  lemma {:induction false} EndConserves(s: State, i: nat, bound: nat, of: Key -> bool, q: Quantity)
    ensures Accounted(Next(s, End(i), bound), of, q) == Accounted(s, of, q)
  {
    if i < |s.flights| && s.flights[i].running && s.flights[i].todo == [] {
      InFlightUpdate(s.flights, i, Flight([], [], false), of, q);
      OwedConcat(s.pending, s.flights[i].failed, of, q);
      TrimConserves(s.pending + s.flights[i].failed, s.dropped, bound, of, q);
    }
  }

  lemma {:induction false} RecordConserves(s: State, e: Event, bound: nat, of: Key -> bool, q: Quantity)
    ensures var t := Next(s, Record(e), bound);
            Accounted(t, of, q) - Spent(t.recorded, of, q) == Accounted(s, of, q) - Spent(s.recorded, of, q)
  {
    assert (s.recorded + [e])[..|s.recorded|] == s.recorded;
    assert (s.buffer + [e])[..|s.buffer|] == s.buffer;
  }

  lemma {:induction false} StepConserves(s: State, step: Step, bound: nat, of: Key -> bool, q: Quantity)
    ensures var t := Next(s, step, bound);
            Accounted(t, of, q) - Spent(t.recorded, of, q) == Accounted(s, of, q) - Spent(s.recorded, of, q)
  {
    match step
    case Record(e) => RecordConserves(s, e, bound, of, q);
    case Begin => BeginConserves(s, bound, of, q);
    case Write(i, ok) => WriteConserves(s, i, ok, bound, of, q);
    case End(i) => EndConserves(s, i, bound, of, q);
  }

  lemma {:induction false} StepKeepsBound(s: State, step: Step, bound: nat)
    requires |s.pending| <= bound
    ensures |Next(s, step, bound).pending| <= bound
  {}

  /** In every interleaving, for any keys and every quantity, what was recorded
      is what is written, in flight, waiting, buffered or dropped; and the retry
      queue never exceeds its bound. */
  lemma {:induction false} NothingIsLost(steps: seq<Step>, bound: nat, of: Key -> bool, q: Quantity)
    ensures Spent(Run(steps, bound).recorded, of, q) == Accounted(Run(steps, bound), of, q)
    ensures |Run(steps, bound).pending| <= bound
  {
    if steps == [] {
      EmptyAccounts(of, q);
    } else {
      var front, step := steps[..|steps| - 1], steps[|steps| - 1];
      NothingIsLost(front, bound, of, q);
      StepConserves(Run(front, bound), step, bound, of, q);
      StepKeepsBound(Run(front, bound), step, bound);
    }
  }

  lemma {:induction false} EmptyAccounts(of: Key -> bool, q: Quantity)
    ensures Accounted(START, of, q) == 0 == Spent([], of, q)
  {}

  // ---- age: what is dropped when flushes do not overlap

  predicate InAgeOrder(qs: seq<Queued>) {
    forall i, j :: 0 <= i < j < |qs| ==> qs[i].born <= qs[j].born
  }

  predicate ByAge(qs: seq<Queued>, limit: nat) {
    InAgeOrder(qs) && forall i :: 0 <= i < |qs| ==> qs[i].born < limit
  }

  ghost predicate Idle(s: State) {
    forall i :: 0 <= i < |s.flights| ==> !s.flights[i].running
  }

  /** No flush begins while another runs. */
  ghost predicate Solo(steps: seq<Step>, bound: nat) {
    forall n :: 0 <= n < |steps| && steps[n].Begin? ==> Idle(Run(steps[..n], bound))
  }

  predicate Over(f: Flight) {
    !f.running && f.todo == []
  }

  predicate Busy(s: State) {
    s.flights != [] && s.flights[|s.flights| - 1].running
  }

  /** With one flush at a time only the last can run; the queue and what that
      flush holds are in age order, and the queue is empty while it runs. */
  ghost predicate Ordered(s: State) {
    && (forall i :: 0 <= i < |s.flights| ==> Over(s.flights[i]) || (i == |s.flights| - 1 && Busy(s)))
    && (if Busy(s)
        then s.pending == [] && ByAge(s.flights[|s.flights| - 1].failed + s.flights[|s.flights| - 1].todo, s.begun)
        else ByAge(s.pending, s.begun))
  }

  lemma {:induction false} TagAge(aggs: seq<Agg>, born: nat)
    ensures forall i :: 0 <= i < |Tag(aggs, born)| ==> Tag(aggs, born)[i].born == born
  {
    if aggs != [] {
      TagAge(aggs[..|aggs| - 1], born);
    }
  }

  lemma {:induction false} QueueAge(pending: seq<Queued>, aggs: seq<Agg>, born: nat)
    requires ByAge(pending, born)
    ensures ByAge(pending + Tag(aggs, born), born + 1)
  {
    TagAge(aggs, born);
  }

  lemma {:induction false} BeginOrdered(s: State, bound: nat)
    requires Ordered(s) && Idle(s)
    ensures Ordered(Next(s, Begin, bound))
  {
    assert !Busy(s);
    if !(s.buffer == [] && s.pending == []) {
      QueueAge(s.pending, Aggregated(s.buffer), s.begun);
      assert forall i :: 0 <= i < |s.flights| ==> Over(s.flights[i]);
    }
  }

  lemma {:induction false} SkipByAge(a: seq<Queued>, b: seq<Queued>, limit: nat)
    requires b != [] && ByAge(a + b, limit)
    ensures ByAge(a + b[1..], limit) && a + [b[0]] + b[1..] == a + b
  {
    var was, now := a + b, a + b[1..];
    assert forall j :: 0 <= j < |now| ==> now[j] == was[if j < |a| then j else j + 1];
  }

  lemma {:induction false} WriteOrdered(s: State, i: nat, ok: bool, bound: nat)
    requires Ordered(s)
    ensures Ordered(Next(s, Write(i, ok), bound))
  {
    if i < |s.flights| && s.flights[i].todo != [] {
      assert !Over(s.flights[i]);
      SkipByAge(s.flights[i].failed, s.flights[i].todo, s.begun);
    }
  }

  lemma {:induction false} TrimByAge(q: seq<Queued>, bound: nat, limit: nat)
    requires ByAge(q, limit)
    ensures ByAge(Newest(q, bound), limit)
  {}

  lemma {:induction false} EndOrdered(s: State, i: nat, bound: nat)
    requires Ordered(s)
    ensures Ordered(Next(s, End(i), bound))
  {
    if i < |s.flights| && s.flights[i].running && s.flights[i].todo == [] {
      assert !Over(s.flights[i]);
      var q := s.flights[i].failed;
      assert q + s.flights[i].todo == q && s.pending + q == q;
      TrimByAge(q, bound, s.begun);
    }
  }

  predicate CanEnd(s: State, i: nat) {
    i < |s.flights| && s.flights[i].running && s.flights[i].todo == []
  }

  lemma {:induction false} EndingInOrder(s: State, i: nat)
    requires Ordered(s) && CanEnd(s, i)
    ensures InAgeOrder(s.pending + s.flights[i].failed)
  {
    assert !Over(s.flights[i]);
    var failed := s.flights[i].failed;
    assert failed + s.flights[i].todo == failed && s.pending + failed == failed;
  }

  lemma {:induction false} NoEndNoDrop(s: State, i: nat, bound: nat)
    requires !CanEnd(s, i)
    ensures DroppedAreOldest(s, i, bound)
  {
    assert Next(s, End(i), bound) == s && s.dropped[|s.dropped|..] == [];
  }

  lemma {:induction false} EndDropsOldest(s: State, i: nat, bound: nat)
    requires Ordered(s)
    ensures DroppedAreOldest(s, i, bound)
  {
    if CanEnd(s, i) {
      EndingInOrder(s, i);
      EndDropsOldestIff(s, i);
    } else {
      NoEndNoDrop(s, i, bound);
    }
  }

  /** Whatever ending this flush drops is no younger than whatever still waits. */
  ghost predicate DroppedAreOldest(s: State, i: nat, bound: nat) {
    var t := Next(s, End(i), bound);
    && s.dropped <= t.dropped
    && var gone := t.dropped[|s.dropped|..];
       forall d, p :: d in gone && p in t.pending ==> d.born <= p.born
  }

  predicate DropsOldest(q: seq<Queued>, bound: nat) {
    forall d, p :: d in Overflow(q, bound) && p in Newest(q, bound) ==> d.born <= p.born
  }

  lemma {:induction false} InversionDrops(q: seq<Queued>) returns (bound: nat)
    requires !InAgeOrder(q)
    ensures !DropsOldest(q, bound)
  {
    var a, b :| 0 <= a < b < |q| && q[a].born > q[b].born;
    bound := |q| - a - 1;
    assert Overflow(q, bound)[a] == q[a] && Newest(q, bound)[b - a - 1] == q[b];
    assert q[a] in Overflow(q, bound) && q[b] in Newest(q, bound);
  }

  /** In any state, whatever runs beside it, ending a flush drops only the oldest
      for every bound exactly when the queue it makes is in age order. */
  lemma {:induction false} EndDropsOldestIff(s: State, i: nat)
    requires CanEnd(s, i)
    ensures (forall bound: nat :: DroppedAreOldest(s, i, bound)) <==> InAgeOrder(s.pending + s.flights[i].failed)
  {
    var q := s.pending + s.flights[i].failed;
    forall bound: nat ensures DroppedAreOldest(s, i, bound) <==> DropsOldest(q, bound) {
      EndSplits(s, i, bound);
    }
    if !InAgeOrder(q) {
      var bound := InversionDrops(q);
      assert !DroppedAreOldest(s, i, bound);
    }
  }

  lemma {:induction false} EndSplits(s: State, i: nat, bound: nat)
    requires CanEnd(s, i)
    ensures var q, t := s.pending + s.flights[i].failed, Next(s, End(i), bound);
            t.dropped == s.dropped + Overflow(q, bound) && t.dropped[|s.dropped|..] == Overflow(q, bound) &&
            t.pending == Newest(q, bound)
  {}

  lemma {:induction false} SoloIsOrdered(steps: seq<Step>, bound: nat)
    requires Solo(steps, bound)
    ensures Ordered(Run(steps, bound))
  {
    if steps != [] {
      var n := |steps| - 1;
      var front := steps[..n];
      assert forall m :: 0 <= m < n ==> front[m] == steps[m] && front[..m] == steps[..m];
      SoloIsOrdered(front, bound);
      var s := Run(front, bound);
      match steps[n]
      case Record(_) =>
      case Begin => BeginOrdered(s, bound);
      case Write(i, ok) => WriteOrdered(s, i, ok, bound);
      case End(i) => EndOrdered(s, i, bound);
    }
  }

  /** Without overlapping flushes only the oldest waiting aggregates are dropped. */
  lemma {:induction false} OnlyOldestDropped(steps: seq<Step>, bound: nat, i: nat)
    requires Solo(steps, bound)
    ensures DroppedAreOldest(Run(steps, bound), i, bound)
  {
    SoloIsOrdered(steps, bound);
    EndDropsOldest(Run(steps, bound), i, bound);
  }

  lemma {:induction false} RunOne(steps: seq<Step>, step: Step, bound: nat)
    ensures Run(steps + [step], bound) == Next(Run(steps, bound), step, bound)
  {
    assert (steps + [step])[..|steps|] == steps;
  }

  /** Two flushes under way, holding one aggregate each. */
  function Two(e: Event, f: Event, x: Flight, y: Flight): State {
    State([e, f], [], [], [x, y], [], [], 2)
  }

  function Held(e: Event, born: nat): Queued {
    Queued(Add(Fresh(KeyOf(e)), e), born)
  }

  lemma {:induction false} FirstFlush(e: Event)
    ensures Run([Record(e), Begin], 1) == State([e], [], [], [Flight([Held(e, 0)], [], true)], [], [], 1)
  {
    RunOne([], Record(e), 1);
    RunOne([Record(e)], Begin, 1);
    assert [] + [Record(e)] == [Record(e)] && [Record(e)] + [Begin] == [Record(e), Begin];
    assert [] + [e] == [e];
    OneEvent(e, 0);
  }

  lemma {:induction false} SecondFlush(e: Event, f: Event)
    ensures Run([Record(e), Begin, Record(f)], 1) ==
            State([e, f], [f], [], [Flight([Held(e, 0)], [], true)], [], [], 1)
    ensures Run([Record(e), Begin, Record(f), Begin], 1) ==
            Two(e, f, Flight([Held(e, 0)], [], true), Flight([Held(f, 1)], [], true))
  {
    FirstFlush(e);
    RunOne([Record(e), Begin], Record(f), 1);
    RunOne([Record(e), Begin, Record(f)], Begin, 1);
    assert [Record(e), Begin] + [Record(f)] == [Record(e), Begin, Record(f)];
    assert [Record(e), Begin, Record(f)] + [Begin] == [Record(e), Begin, Record(f), Begin];
    OneEvent(f, 1);
  }

  lemma {:induction false} FailsOnly(s: State, i: nat, x: Queued)
    requires i < |s.flights| && s.flights[i] == Flight([x], [], true)
    ensures Next(s, Write(i, false), 1) == s.(flights := s.flights[i := Flight([], [x], true)])
  {
    assert [x][1..] == [] && [] + [x] == [x];
  }

  lemma {:induction false} YoungerRequeued(e: Event, f: Event)
    ensures Next(Two(e, f, Flight([], [Held(e, 0)], true), Flight([], [Held(f, 1)], true)), End(1), 1) ==
            State([e, f], [], [Held(f, 1)], [Flight([], [Held(e, 0)], true), Flight([], [], false)], [], [], 2)
  {
    assert [] + [Held(f, 1)] == [Held(f, 1)];
  }

  lemma {:induction false} BothFail(e: Event, f: Event)
    ensures var steps := [Record(e), Begin, Record(f), Begin, Write(0, false), Write(1, false), End(1)];
            Run(steps, 1) ==
            State([e, f], [], [Held(f, 1)], [Flight([], [Held(e, 0)], true), Flight([], [], false)], [], [], 2)
  {
    SecondFlush(e, f);
    var s4 := [Record(e), Begin, Record(f), Begin];
    var s5 := s4 + [Write(0, false)];
    var s6 := s5 + [Write(1, false)];
    RunOne(s4, Write(0, false), 1);
    assert Run(s5, 1) == Two(e, f, Flight([], [Held(e, 0)], true), Flight([Held(f, 1)], [], true)) by {
      FailsOnly(Run(s4, 1), 0, Held(e, 0));
    }
    RunOne(s5, Write(1, false), 1);
    assert Run(s6, 1) == Two(e, f, Flight([], [Held(e, 0)], true), Flight([], [Held(f, 1)], true)) by {
      FailsOnly(Run(s5, 1), 1, Held(f, 1));
    }
    RunOne(s6, End(1), 1);
    YoungerRequeued(e, f);
    assert s6 + [End(1)] == [Record(e), Begin, Record(f), Begin, Write(0, false), Write(1, false), End(1)];
  }

  /** With overlapping flushes it can be the other way round: the second flush
      has requeued its younger aggregate when the first requeues the older one. */
  lemma {:induction false} OverlapDropsYounger(e: Event, f: Event)
    ensures var steps := [Record(e), Begin, Record(f), Begin, Write(0, false), Write(1, false), End(1)];
            !DroppedAreOldest(Run(steps, 1), 0, 1)
  {
    BothFail(e, f);
    var s := Run([Record(e), Begin, Record(f), Begin, Write(0, false), Write(1, false), End(1)], 1);
    var t := Next(s, End(0), 1);
    assert t.dropped == [Held(f, 1)] && t.pending == [Held(e, 0)];
    assert t.dropped[0..] == t.dropped && t.dropped[0] in t.dropped && t.pending[0] in t.pending;
    assert t.dropped[0].born == 1 && t.pending[0].born == 0;
  }

  lemma {:induction false} OneEvent(e: Event, born: nat)
    ensures Tag(Aggregated([e]), born) == [Held(e, born)]
  {
    assert [e][..0] == [] && Aggregated([]) == [];
    var a := Add(Fresh(KeyOf(e)), e);
    assert Aggregated([e]) == [a] && [a][..0] == [];
    assert Tag([], born) == [];
  }

  /** A write that succeeds moves the next aggregate from its flush to what is
      written; one that fails writes nothing, and keeps it for the retry. */
  lemma {:induction false} WriteMeaning(s: State, i: nat, ok: bool, bound: nat)
    requires i < |s.flights| && s.flights[i].todo != []
    ensures var x, f, t := s.flights[i].todo[0], s.flights[i], Next(s, Write(i, ok), bound);
            && t.written == (if ok then s.written + [x] else s.written)
            && t.flights[i] == Flight(f.todo[1..], if ok then f.failed else f.failed + [x], f.running)
            && t.pending == s.pending && t.dropped == s.dropped && t.buffer == s.buffer
  {}

  /** When nothing is buffered, in flight or waiting, what was not dropped is written. */
  lemma {:induction false} DrainedIsWritten(steps: seq<Step>, bound: nat, of: Key -> bool, q: Quantity)
    requires var s := Run(steps, bound);
             s.buffer == [] && s.pending == [] &&
             forall i :: 0 <= i < |s.flights| ==> s.flights[i].todo == [] && s.flights[i].failed == []
    ensures var s := Run(steps, bound);
            Spent(s.recorded, of, q) == Owed(s.written, of, q) + Owed(s.dropped, of, q)
  {
    NothingIsLost(steps, bound, of, q);
    NothingInFlight(Run(steps, bound).flights, of, q);
  }

  lemma {:induction false} NothingInFlight(fs: seq<Flight>, of: Key -> bool, q: Quantity)
    requires forall i :: 0 <= i < |fs| ==> fs[i].todo == [] && fs[i].failed == []
    ensures InFlight(fs, of, q) == 0
  {
    if fs != [] {
      NothingInFlight(fs[..|fs| - 1], of, q);
    }
  }
}
