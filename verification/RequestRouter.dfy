/** Provider selection: per-provider statistics, a circuit breaker with a single
    half-open probe, and the selection strategies. */
module RequestRouter {
  import opened Options

  const THRESHOLD: nat := 3
  const COOLDOWN := 300.0

  /** Times are in seconds. `streak` counts consecutive failures. */
  datatype Stats = Stats(total: nat, succeeded: nat, failed: nat, latency: real,
                         lastSuccess: Option<real>, lastFailure: Option<real>, streak: nat, probing: bool)

  const NEW := Stats(0, 0, 0, 0.0, None, None, 0, false)

  predicate CoolingOff(s: Stats, now: real) {
    && s.lastFailure.Some?
    && (s.lastSuccess.None? || s.lastFailure.value > s.lastSuccess.value)
    && now - s.lastFailure.value < COOLDOWN
  }

  datatype Verdict = Refused | Normal | HalfOpen

  function Judge(s: Stats, now: real): Verdict {
    if s.streak >= THRESHOLD then
      if CoolingOff(s, now) || s.probing then Refused else HalfOpen
    else if CoolingOff(s, now) then Refused
    else Normal
  }

  /** An offer in the half-open state reserves the probe. */
  function Considered(s: Stats, now: real): Stats {
    if Judge(s, now) == HalfOpen then s.(probing := true) else s
  }

  function Updated(s: Stats, success: bool, latency: real, now: real): Stats {
    if success then
      Stats(s.total + 1, s.succeeded + 1, s.failed,
            if s.latency == 0.0 then latency else s.latency * 0.9 + latency * 0.1,
            Some(now), s.lastFailure, 0, false)
    else
      Stats(s.total + 1, s.succeeded, s.failed + 1, s.latency, s.lastSuccess, Some(now), s.streak + 1, false)
  }

  function Checked(s: Stats, healthy: bool, now: real): Stats {
    if healthy then s.(streak := 0, lastSuccess := Some(now))
    else s.(streak := s.streak + 1, lastFailure := Some(now))
  }

  // ---- what a provider's statistics say about its history

  datatype Entry =
    | Considering(at: real)
    | Outcome(success: bool, latency: real, at: real)
    | Health(healthy: bool, at: real)

  function Entered(s: Stats, e: Entry): Stats {
    match e
    case Considering(now) => Considered(s, now)
    case Outcome(ok, latency, now) => Updated(s, ok, latency, now)
    case Health(ok, now) => Checked(s, ok, now)
  }

  function After(h: seq<Entry>): Stats {
    if h == [] then NEW else Entered(After(h[..|h| - 1]), h[|h| - 1])
  }

  predicate Good(e: Entry) {
    (e.Outcome? && e.success) || (e.Health? && e.healthy)
  }

  predicate Bad(e: Entry) {
    (e.Outcome? && !e.success) || (e.Health? && !e.healthy)
  }

  function Count(h: seq<Entry>, p: Entry -> bool): nat {
    if h == [] then 0 else Count(h[..|h| - 1], p) + if p(h[|h| - 1]) then 1 else 0
  }

  /** Requests are counted once each, as a success or a failure; health checks
      are not requests. */
  lemma {:induction false} RequestsAreCounted(h: seq<Entry>)
    ensures var s := After(h);
            && s.total == s.succeeded + s.failed
            && s.succeeded == Count(h, (e: Entry) => e.Outcome? && e.success)
            && s.failed == Count(h, (e: Entry) => e.Outcome? && !e.success)
  {
    if h != [] {
      RequestsAreCounted(h[..|h| - 1]);
    }
  }

  /** The failures, of requests and health checks, since the last success are
      exactly those the streak counts. */
  lemma {:induction false} StreakIsTrailingFailures(h: seq<Entry>) returns (since: nat)
    ensures since <= |h| && (since > 0 ==> Good(h[since - 1]))
    ensures forall i :: since <= i < |h| ==> !Good(h[i])
    ensures After(h).streak == Count(h[since..], Bad)
  {
    if h == [] {
      since := 0;
    } else {
      var n := |h| - 1;
      if Good(h[n]) {
        since := |h|;
      } else {
        since := StreakIsTrailingFailures(h[..n]);
        assert h[since..][..n - since] == h[..n][since..];
      }
    }
  }

  /** The average is within any bounds that hold for all successful latencies. */
  lemma {:induction false} LatencyWithinBounds(h: seq<Entry>, lo: real, hi: real)
    requires forall i :: 0 <= i < |h| && h[i].Outcome? && h[i].success ==> lo <= h[i].latency <= hi
    ensures var s := After(h);
            if s.succeeded == 0 then s.latency == 0.0 else lo <= s.latency <= hi
  {
    if h != [] {
      var front := h[..|h| - 1];
      assert forall i :: 0 <= i < |front| ==> front[i] == h[i];
      LatencyWithinBounds(front, lo, hi);
    }
  }

  /** The latencies of the successful requests. */
  function Latencies(h: seq<Entry>): seq<real> {
    if h == [] then []
    else
      var e := h[|h| - 1];
      Latencies(h[..|h| - 1]) + if e.Outcome? && e.success then [e.latency] else []
  }

  function Faded(k: nat): real {
    if k == 0 then 1.0 else 0.9 * Faded(k - 1)
  }

  /** What the `i`-th of `n` latencies weighs: a tenth, faded by a tenth with
      each later one; the first one starts with its full weight. */
  function Weight(i: nat, n: nat): real
    requires i < n
  {
    (if i == 0 then 1.0 else 0.1) * Faded(n - 1 - i)
  }

  /** The first `m` latencies in a mean over `n`. */
  function WeightedSum(ls: seq<real>, m: nat, n: nat): real
    requires m <= |ls| && m <= n
  {
    if m == 0 then 0.0 else WeightedSum(ls, m - 1, n) + Weight(m - 1, n) * ls[m - 1]
  }

  lemma {:induction false} OneMoreFades(ls: seq<real>, x: real, m: nat, n: nat)
    requires m <= |ls| && m <= n
    ensures WeightedSum(ls + [x], m, n + 1) == 0.9 * WeightedSum(ls, m, n)
  {
    if m > 0 {
      OneMoreFades(ls, x, m - 1, n);
      assert Faded(n + 1 - m) == 0.9 * Faded(n - m);
      assert Weight(m - 1, n + 1) == 0.9 * Weight(m - 1, n);
    }
  }

  lemma {:induction false} OneMoreLatency(ls: seq<real>, x: real)
    ensures var more := ls + [x];
            WeightedSum(more, |more|, |more|) ==
            if ls == [] then x else WeightedSum(ls, |ls|, |ls|) * 0.9 + x * 0.1
  {
    var n := |ls|;
    OneMoreFades(ls, x, n, n);
    assert Faded(0) == 1.0;
    assert Weight(n, n + 1) == if n == 0 then 1.0 else 0.1;
    assert (ls + [x])[n] == x;
  }

  lemma {:induction false} WeightsAreOne(n: nat)
    requires n > 0
    ensures WeightedSum(Ones(n), n, n) == 1.0
  {
    if n > 1 {
      WeightsAreOne(n - 1);
      OneMoreLatency(Ones(n - 1), 1.0);
    }
  }

  function Ones(n: nat): (s: seq<real>)
    ensures |s| == n
  {
    if n == 0 then [] else Ones(n - 1) + [1.0]
  }

  /** The average is the weighted sum of all successful latencies; the weights
      sum to one. */
  lemma {:induction false} LatencyIsWeighted(h: seq<Entry>)
    requires forall i :: 0 <= i < |h| && h[i].Outcome? && h[i].success ==> h[i].latency > 0.0
    ensures var ls := Latencies(h);
            && After(h).latency == WeightedSum(ls, |ls|, |ls|)
            && (ls == [] <==> After(h).succeeded == 0)
            && (ls != [] ==> After(h).latency > 0.0 && WeightedSum(Ones(|ls|), |ls|, |ls|) == 1.0)
  {
    if h != [] {
      var front, e := h[..|h| - 1], h[|h| - 1];
      assert forall i :: 0 <= i < |front| ==> front[i] == h[i];
      LatencyIsWeighted(front);
      var ls := Latencies(front);
      if e.Outcome? && e.success {
        OneMoreLatency(ls, e.latency);
        WeightsAreOne(|ls| + 1);
      } else {
        assert ls + [] == ls;
      }
    }
  }

  predicate Timed(h: seq<Entry>) {
    forall i, j :: 0 <= i < j < |h| ==> h[i].at <= h[j].at
  }

  /** When the last entry of a kind was. */
  function LastTime(h: seq<Entry>, p: Entry -> bool): Option<real> {
    if h == [] then None
    else if p(h[|h| - 1]) then Some(h[|h| - 1].at)
    else LastTime(h[..|h| - 1], p)
  }

  lemma {:induction false} TimesAreLast(h: seq<Entry>)
    requires Timed(h)
    ensures var s := After(h);
            && s.lastSuccess == LastTime(h, Good) && s.lastFailure == LastTime(h, Bad)
            && (s.lastSuccess.Some? ==> h != [] && s.lastSuccess.value <= h[|h| - 1].at)
            && (s.lastFailure.Some? ==> h != [] && s.lastFailure.value <= h[|h| - 1].at)
            && (s.streak > 0 ==> s.lastFailure.Some?)
            && (s.streak > 0 && s.lastSuccess.Some? ==> s.lastSuccess.value <= s.lastFailure.value)
  {
    if h != [] {
      var front := h[..|h| - 1];
      assert Timed(front) by {
        assert forall i :: 0 <= i < |front| ==> front[i] == h[i];
      }
      TimesAreLast(front);
      if front != [] {
        assert h[|h| - 2].at <= h[|h| - 1].at;
      }
    }
  }

  /** The failures, of requests and health checks, since the last success. */
  function TrailingFailures(h: seq<Entry>): nat {
    if h == [] || Good(h[|h| - 1]) then 0
    else TrailingFailures(h[..|h| - 1]) + if Bad(h[|h| - 1]) then 1 else 0
  }

  /** Nothing has failed, or the last success is not before the last failure, or
      that failure is five minutes ago. */
  predicate CooledDown(h: seq<Entry>, now: real) {
    var failure, success := LastTime(h, Bad), LastTime(h, Good);
    failure.None? || (success.Some? && success.value >= failure.value) || now - failure.value >= 300.0
  }

  lemma {:induction false} StatsOfHistory(h: seq<Entry>)
    ensures var s := After(h);
            && s.streak == TrailingFailures(h)
            && s.lastSuccess == LastTime(h, Good) && s.lastFailure == LastTime(h, Bad)
  {
    if h != [] {
      StatsOfHistory(h[..|h| - 1]);
    }
  }

  /** Since the last result of a request the provider was considered with three
      trailing failures and its cooldown over, and so offered half-open. */
  predicate ProbeOut(h: seq<Entry>) {
    h != [] &&
    var front, e := h[..|h| - 1], h[|h| - 1];
    match e
    case Outcome(_, _, _) => false
    case Health(_, _) => ProbeOut(front)
    case Considering(now) => ProbeOut(front) || (TrailingFailures(front) >= 3 && CooledDown(front, now))
  }

  lemma {:induction false} ProbingMeansProbeOut(h: seq<Entry>)
    ensures After(h).probing <==> ProbeOut(h)
  {
    if h != [] {
      StatsOfHistory(h[..|h| - 1]);
      ProbingMeansProbeOut(h[..|h| - 1]);
    }
  }

  /** A provider with three trailing failures is offered exactly when no probe is
      out and five minutes have passed since its last failure, except that a
      failure stamped like the last success counts as no cooldown at all. */
  lemma {:induction false} OpenBreakerOffersIff(h: seq<Entry>, now: real)
    requires Timed(h) && TrailingFailures(h) >= 3
    ensures var failure, success := LastTime(h, Bad), LastTime(h, Good);
            && failure.Some?
            && (Judge(After(h), now) != Refused <==>
                  !ProbeOut(h) && (now - failure.value >= 300.0 || success == failure))
            && Judge(After(h), now) != Normal
  {
    StatsOfHistory(h);
    TimesAreLast(h);
    ProbingMeansProbeOut(h);
  }

  /** With fewer it is offered exactly when nothing has failed, or the last success
      is not before the last failure, or that is five minutes ago; and never as a
      probe. */
  lemma {:induction false} ClosedBreakerOffersIff(h: seq<Entry>, now: real)
    requires TrailingFailures(h) < 3
    ensures var failure, success := LastTime(h, Bad), LastTime(h, Good);
            && (Judge(After(h), now) != Refused <==>
                  failure.None? || (success.Some? && success.value >= failure.value) || now - failure.value >= 300.0)
            && Judge(After(h), now) != HalfOpen
  {
    StatsOfHistory(h);
  }

  /** The load is ten for every trailing failure, and one for every failed request. */
  lemma {:induction false} LoadMeaning(stats: map<string, Stats>, name: string, h: seq<Entry>)
    requires StatsOf(stats, name) == After(h)
    ensures LoadOf(stats, name) == Count(h, (e: Entry) => e.Outcome? && !e.success) + 10 * TrailingFailures(h)
  {
    StatsOfHistory(h);
    RequestsAreCounted(h);
  }

  /** The exception happens: a success and three failures at the same instant. */
  lemma {:induction false} SameInstantSkipsCooldown(t: real)
    ensures var h := [Outcome(true, 1.0, t), Outcome(false, 0.0, t), Outcome(false, 0.0, t), Outcome(false, 0.0, t)];
            TrailingFailures(h) == 3 && Judge(After(h), t) == HalfOpen
  {
    var a, b := Outcome(true, 1.0, t), Outcome(false, 0.0, t);
    var h := [a, b, b, b];
    assert h[..3] == [a, b, b] && h[..3][..2] == [a, b] && h[..3][..2][..1] == [a] && h[..3][..2][..1][..0] == [];
    assert After([a]) == Updated(NEW, true, 1.0, t);
    assert After([a, b]) == Updated(After([a]), false, 0.0, t);
    assert After([a, b, b]) == Updated(After([a, b]), false, 0.0, t);
    StatsOfHistory(h);
  }

  ghost predicate OfferedHalfOpen(h: seq<Entry>, i: nat)
    requires i < |h|
  {
    h[i].Considering? && Judge(After(h[..i]), h[i].at) == HalfOpen
  }

  lemma {:induction false} ProbeStaysOut(h: seq<Entry>, i: nat, j: nat)
    requires i < j <= |h| && OfferedHalfOpen(h, i)
    requires forall m :: i < m < j ==> !h[m].Outcome?
    ensures ProbeOut(h[..j])
  {
    assert h[..j][..j - 1] == h[..j - 1];
    StatsOfHistory(h[..i]);
    if j > i + 1 {
      ProbeStaysOut(h, i, j - 1);
    }
  }

  /** Between two half-open offers of a provider a request to it has ended. */
  lemma {:induction false} OneProbeAtATime(h: seq<Entry>, i: nat, j: nat)
    requires i < j < |h| && OfferedHalfOpen(h, i) && OfferedHalfOpen(h, j)
    ensures exists m :: i < m < j && h[m].Outcome?
  {
    if forall m :: i < m < j ==> !h[m].Outcome? {
      ProbeStaysOut(h, i, j);
      ProbingMeansProbeOut(h[..j]);
    }
  }

  // ---- the router object

  /** An empty model list means that every model is supported. */
  datatype Connector = Connector(name: string, models: set<string>, affinity: bool)

  datatype ModelConfig = ModelConfig(preferred: seq<string>, cost: map<string, real>)

  datatype Strategy = RoundRobin | CostOptimized | LatencyOptimized | LoadBalanced | Failover | Random(draw: nat)

  predicate Supports(c: Connector, model: string) {
    model in c.models || c.models == {}
  }

  predicate DistinctNames(cs: seq<Connector>) {
    forall i, j :: 0 <= i < j < |cs| ==> cs[i].name != cs[j].name
  }

  function StatsOf(stats: map<string, Stats>, name: string): Stats {
    if name in stats then stats[name] else NEW
  }

  /** The providers offered for a model, in order. */
  function Offered(cs: seq<Connector>, stats: map<string, Stats>, model: string, now: real): seq<string> {
    if cs == [] then []
    else
      var c := cs[|cs| - 1];
      Offered(cs[..|cs| - 1], stats, model, now) +
      if Supports(c, model) && Judge(StatsOf(stats, c.name), now) != Refused then [c.name] else []
  }

  predicate Asked(cs: seq<Connector>, model: string, name: string) {
    exists i :: 0 <= i < |cs| && cs[i].name == name && Supports(cs[i], model)
  }

  /** The statistics are those of the histories. */
  ghost predicate Mirrors(stats: map<string, Stats>, log: map<string, seq<Entry>>) {
    log.Keys == stats.Keys && forall p :: p in stats ==> stats[p] == After(log[p])
  }

  /** Every provider that supports the model has been considered. */
  function Logged(log: map<string, seq<Entry>>, cs: seq<Connector>, model: string, now: real): map<string, seq<Entry>> {
    map p | p in log :: if Asked(cs, model, p) then log[p] + [Considering(now)] else log[p]
  }

  lemma {:induction false} LoggedStep(log: map<string, seq<Entry>>, cs: seq<Connector>, i: nat, model: string,
                                      now: real)
    requires i < |cs| && DistinctNames(cs)
    ensures var was, name := Logged(log, cs[..i], model, now), cs[i].name;
            && (name in log ==> was[name] == log[name])
            && Logged(log, cs[..i + 1], model, now) ==
               if Supports(cs[i], model) && name in log then was[name := log[name] + [Considering(now)]] else was
  {
    AskedMore(cs, i, model);
  }

  function LoadOf(stats: map<string, Stats>, name: string): int {
    var s := StatsOf(stats, name);
    s.total - s.succeeded + s.streak * 10
  }

  /** Provider `i` is the first of least cost, or the first of all when none has one. */
  predicate FirstLeast(i: nat, providers: seq<string>, cost: map<string, real>)
    requires i < |providers|
  {
    if forall j :: 0 <= j < |providers| ==> providers[j] !in cost then i == 0
    else
      && providers[i] in cost
      && forall j :: 0 <= j < |providers| && providers[j] in cost ==>
           if j < i then cost[providers[i]] < cost[providers[j]] else cost[providers[i]] <= cost[providers[j]]
  }

  /** Provider `i` is the first of least average latency. */
  predicate FirstFastest(i: nat, providers: seq<string>, stats: map<string, Stats>)
    requires i < |providers|
  {
    forall j :: 0 <= j < |providers| ==>
      if j < i then StatsOf(stats, providers[i]).latency < StatsOf(stats, providers[j]).latency
      else StatsOf(stats, providers[i]).latency <= StatsOf(stats, providers[j]).latency
  }

  /** Provider `i` is the first of least load. */
  predicate FirstLightest(i: nat, providers: seq<string>, stats: map<string, Stats>)
    requires i < |providers|
  {
    forall j :: 0 <= j < |providers| ==>
      if j < i then LoadOf(stats, providers[i]) < LoadOf(stats, providers[j])
      else LoadOf(stats, providers[i]) <= LoadOf(stats, providers[j])
  }

  /** Of providers alike in what the strategy looks at, the first is selected. */
  lemma {:induction false} TiesGoToTheFirst(i: nat, providers: seq<string>, cost: map<string, real>,
                                            stats: map<string, Stats>)
    requires i < |providers|
    ensures (forall p :: p in providers ==> p in cost) ==>
            (forall j :: 0 <= j < |providers| ==> cost[providers[j]] == cost[providers[0]]) ==>
              (FirstLeast(i, providers, cost) <==> i == 0)
    ensures (forall j :: 0 <= j < |providers| ==>
               StatsOf(stats, providers[j]).latency == StatsOf(stats, providers[0]).latency) ==>
              (FirstFastest(i, providers, stats) <==> i == 0)
    ensures (forall j :: 0 <= j < |providers| ==>
               LoadOf(stats, providers[j]) == LoadOf(stats, providers[0])) ==>
              (FirstLightest(i, providers, stats) <==> i == 0)
  {}

  /** The first preferred provider that is available, else the first available. */
  predicate FirstPreferred(p: string, providers: seq<string>, preferred: seq<string>)
    requires providers != []
  {
    if exists i :: 0 <= i < |preferred| && preferred[i] in providers
    then exists i :: 0 <= i < |preferred| && p == preferred[i] && p in providers &&
                     forall j :: 0 <= j < i ==> preferred[j] !in providers
    else p == providers[0]
  }

  /** A turn of the model's counter. */
  function Counted(counters: map<string, nat>, model: string): map<string, nat> {
    counters[model + "_rr" := 1 + if model + "_rr" in counters then counters[model + "_rr"] else 0]
  }

  /** What each strategy selects. */
  predicate Picks(strategy: Strategy, model: string, available: seq<string>, stats: map<string, Stats>,
                  configs: map<string, ModelConfig>, counters: map<string, nat>, p: string)
    requires available != []
  {
    match strategy
    case RoundRobin =>
      var key := model + "_rr";
      p == available[(if key in counters then counters[key] else 0) % |available|]
    case CostOptimized =>
      if model !in configs then p == available[0]
      else exists i :: 0 <= i < |available| && p == available[i] && FirstLeast(i, available, configs[model].cost)
    case LatencyOptimized => exists i :: 0 <= i < |available| && p == available[i] && FirstFastest(i, available, stats)
    case LoadBalanced => exists i :: 0 <= i < |available| && p == available[i] && FirstLightest(i, available, stats)
    case Failover => FirstPreferred(p, available, if model in configs then configs[model].preferred else [])
    case Random(draw) => p == available[draw % |available|]
  }

  lemma {:induction false} PickIsAvailable(strategy: Strategy, model: string, available: seq<string>,
                                           stats: map<string, Stats>,
                                           configs: map<string, ModelConfig>, counters: map<string, nat>, p: string)
    requires available != [] && Picks(strategy, model, available, stats, configs, counters, p)
    ensures p in available
  {}

  class LLMRequestRouter {
    const connectors: seq<Connector>
    const configs: map<string, ModelConfig>
    var stats: map<string, Stats>
    var counters: map<string, nat>
    /** What has happened to each provider. */
    ghost var log: map<string, seq<Entry>>

    ghost predicate Valid()
      reads this
    {
      DistinctNames(connectors) && Mirrors(stats, log)
    }

    constructor (connectors: seq<Connector>, configs: map<string, ModelConfig>)
      requires DistinctNames(connectors)
      ensures Valid() && this.connectors == connectors && this.configs == configs
      ensures forall p :: p in log <==> exists i :: 0 <= i < |connectors| && connectors[i].name == p
      ensures forall p :: p in log ==> log[p] == []
    {
      this.connectors, this.configs := connectors, configs;
      stats := map i | 0 <= i < |connectors| :: connectors[i].name := NEW;
      counters := map i | 0 <= i < |connectors| :: connectors[i].name := 0;
      log := map i | 0 <= i < |connectors| :: connectors[i].name := [];
    }

    /** Availability filtering reserves the probe of every provider that it
        offers half-open, not only of the one finally selected. */
    method GetAvailableProviders(model: string, now: real) returns (available: seq<string>)
      requires Valid()
      modifies this`stats, this`log
      ensures Valid()
      ensures available == Offered(connectors, old(stats), model, now)
      ensures log == Logged(old(log), connectors, model, now)
    {
      available := [];
      assert log == Logged(log, connectors[..0], model, now);
      for i := 0 to |connectors|
        invariant Mirrors(stats, log)
        invariant available == Offered(connectors[..i], old(stats), model, now)
        invariant log == Logged(old(log), connectors[..i], model, now)
      {
        var c := connectors[i];
        LoggedStep(old(log), connectors, i, model, now);
        assert connectors[..i + 1][..i] == connectors[..i];
        if Supports(c, model) {
          var s := StatsOf(stats, c.name);
          assert s == StatsOf(old(stats), c.name);
          if c.name in stats {
            Consider(c.name, now);
          }
          if Judge(s, now) != Refused {
            available := available + [c.name];
          }
        }
      }
      assert connectors[..|connectors|] == connectors;
    }

    method Consider(name: string, now: real)
      requires Mirrors(stats, log) && name in stats
      modifies this`stats, this`log
      ensures Mirrors(stats, log)
      ensures stats == old(stats)[name := Considered(old(stats)[name], now)]
      ensures log == old(log)[name := old(log)[name] + [Considering(now)]]
    {
      log := log[name := log[name] + [Considering(now)]];
      stats := stats[name := Considered(stats[name], now)];
    }

    method UpdateProviderStats(name: string, success: bool, latency: real, now: real)
      requires Valid()
      modifies this`stats, this`log
      ensures Valid()
      ensures log == old(log)[name := (if name in old(log) then old(log)[name] else []) +
                                       [Outcome(success, latency, now)]]
    {
      if name !in stats {
        stats := stats[name := NEW];
        log := log[name := []];
      }
      stats := stats[name := Updated(stats[name], success, latency, now)];
      log := log[name := log[name] + [Outcome(success, latency, now)]];
    }

    /** One result of a health check; unknown providers are ignored. */
    method RecordHealth(name: string, healthy: bool, now: real)
      requires Valid()
      modifies this`stats, this`log
      ensures Valid()
      ensures log == if name in old(log) then old(log)[name := old(log)[name] + [Health(healthy, now)]] else old(log)
    {
      if name in stats {
        stats := stats[name := Checked(stats[name], healthy, now)];
        log := log[name := log[name] + [Health(healthy, now)]];
      }
    }

    method RoundRobinSelection(model: string, providers: seq<string>) returns (p: string)
      requires providers != []
      modifies this`counters
      ensures var key := model + "_rr";
              var c := if key in old(counters) then old(counters)[key] else 0;
              p == providers[c % |providers|] && counters == old(counters)[key := c + 1]
    {
      var key := model + "_rr";
      if key !in counters {
        counters := counters[key := 0];
      }
      var index := counters[key] % |providers|;
      counters := counters[key := counters[key] + 1];
      p := providers[index];
    }

    /** The first provider of least cost; a missing cost is infinite. */
    method CostOptimizedSelection(model: string, providers: seq<string>) returns (p: string)
      requires providers != []
      ensures p in providers
      ensures model !in configs ==> p == providers[0]
      ensures model in configs ==>
                exists i :: 0 <= i < |providers| && p == providers[i] && FirstLeast(i, providers, configs[model].cost)
    {
      if model !in configs {
        return providers[0];
      }
      var cost := configs[model].cost;
      var least: Option<real> := None;
      var best := 0;
      for i := 0 to |providers|
        invariant 0 <= best < |providers|
        invariant least.None? ==> best == 0 && forall j :: 0 <= j < i ==> providers[j] !in cost
        invariant least.Some? ==> best < i && providers[best] in cost && least.value == cost[providers[best]]
        invariant least.Some? ==> forall j :: 0 <= j < i && providers[j] in cost ==>
                    if j < best then least.value < cost[providers[j]] else least.value <= cost[providers[j]]
      {
        var c := providers[i];
        if c in cost && (least.None? || cost[c] < least.value) {
          least := Some(cost[c]);
          best := i;
        }
      }
      p := providers[best];
    }

    method LatencyOptimizedSelection(providers: seq<string>) returns (p: string)
      requires providers != []
      ensures exists i :: 0 <= i < |providers| && p == providers[i] && FirstFastest(i, providers, stats)
    {
      var st := stats;
      var best := 0;
      for i := 0 to |providers|
        invariant 0 <= best < |providers| && (best < i || best == i == 0)
        invariant forall j :: 0 <= j < i ==>
                    if j < best then StatsOf(st, providers[best]).latency < StatsOf(st, providers[j]).latency
                    else StatsOf(st, providers[best]).latency <= StatsOf(st, providers[j]).latency
      {
        if StatsOf(st, providers[i]).latency < StatsOf(st, providers[best]).latency {
          best := i;
        }
      }
      p := providers[best];
    }

    method LoadBalancedSelection(providers: seq<string>) returns (p: string)
      requires providers != []
      ensures exists i :: 0 <= i < |providers| && p == providers[i] && FirstLightest(i, providers, stats)
    {
      var st := stats;
      var best := 0;
      var least := LoadOf(st, providers[0]);
      for i := 0 to |providers|
        invariant 0 <= best < |providers| && (best < i || best == i == 0)
        invariant least == LoadOf(st, providers[best])
        invariant forall j :: 0 <= j < best ==> least < LoadOf(st, providers[j])
        invariant forall j :: best <= j < i ==> least <= LoadOf(st, providers[j])
      {
        var load := LoadOf(st, providers[i]);
        if load < least {
          best, least := i, load;
        }
      }
      p := providers[best];
      assert FirstLightest(best, providers, st);
    }

    method FailoverSelection(model: string, providers: seq<string>) returns (p: string)
      requires providers != []
      ensures FirstPreferred(p, providers, if model in configs then configs[model].preferred else [])
    {
      if model in configs {
        var preferred := configs[model].preferred;
        for i := 0 to |preferred|
          invariant forall j :: 0 <= j < i ==> preferred[j] !in providers
        {
          if preferred[i] in providers {
            return preferred[i];
          }
        }
      }
      p := providers[0];
    }

    method SelectFrom(model: string, available: seq<string>, strategy: Strategy) returns (p: string)
      requires available != []
      modifies this`counters
      ensures Picks(strategy, model, available, stats, configs, old(counters), p)
      ensures counters == if strategy.RoundRobin? then Counted(old(counters), model) else old(counters)
    {
      match strategy
      case RoundRobin => p := RoundRobinSelection(model, available);
      case CostOptimized => p := CostOptimizedSelection(model, available);
      case LatencyOptimized => p := LatencyOptimizedSelection(available);
      case LoadBalanced => p := LoadBalancedSelection(available);
      case Failover => p := FailoverSelection(model, available);
      case Random(draw) => p := available[draw % |available|];
    }

    predicate AffinityEligible(name: string) {
      exists i :: 0 <= i < |connectors| && connectors[i].name == name && connectors[i].affinity
    }

    predicate Honoured(name: string, available: seq<string>) {
      name != "" && name in available && AffinityEligible(name)
    }

    /** Whatever the strategy and the hint, the provider selected is one the
        breaker has just offered for the model. A hint counts only if it names
        one of them that is eligible for affinity; then no counter turns. */
    method SelectProvider(model: string, strategy: Strategy, preferred: Option<string>, now: real)
      returns (r: Option<string>)
      requires Valid()
      modifies this
      ensures Valid()
      ensures var available := Offered(connectors, old(stats), model, now);
              var hinted := preferred.Some? && preferred.value != "" && preferred.value in available &&
                            exists i :: 0 <= i < |connectors| && connectors[i].name == preferred.value &&
                                        connectors[i].affinity;
              && (r.None? <==> available == [])
              && (r.Some? ==> r.value in available)
              && (hinted ==> r == preferred)
              && (r.Some? && !hinted ==>
                    Picks(strategy, model, available, stats, configs, old(counters), r.value))
              && counters == if r.Some? && !hinted && strategy.RoundRobin? then Counted(old(counters), model)
                             else old(counters)
      ensures log == Logged(old(log), connectors, model, now)
    {
      var available := GetAvailableProviders(model, now);
      if available == [] {
        return None;
      }
      if preferred.Some? && Honoured(preferred.value, available) {
        return preferred;
      }
      var p := SelectFrom(model, available, strategy);
      PickIsAvailable(strategy, model, available, stats, configs, old(counters), p);
      return Some(p);
    }
  }

  lemma {:induction false} AskedMore(cs: seq<Connector>, i: nat, model: string)
    requires i < |cs| && DistinctNames(cs)
    ensures forall p :: Asked(cs[..i + 1], model, p) <==>
              Asked(cs[..i], model, p) || (cs[i].name == p && Supports(cs[i], model))
    ensures !Asked(cs[..i], model, cs[i].name)
  {
    var a, b := cs[..i], cs[..i + 1];
    assert b == a + [cs[i]];
    forall p ensures Asked(b, model, p) <==> Asked(a, model, p) || (cs[i].name == p && Supports(cs[i], model)) {
      if Asked(a, model, p) {
        var j :| 0 <= j < |a| && a[j].name == p && Supports(a[j], model);
        assert b[j] == a[j];
      }
      if cs[i].name == p && Supports(cs[i], model) {
        assert b[i] == cs[i];
      }
    }
  }

  /** A provider's statistics are those of its own history, which may be empty. */
  lemma {:induction false} StatsAreOfHistory(stats: map<string, Stats>, log: map<string, seq<Entry>>, name: string)
    requires Mirrors(stats, log)
    ensures StatsOf(stats, name) == After(if name in log then log[name] else [])
  {}

  /** The offers keep the order of the connectors: each is offered or not by its
      own models, none of which stands for any, and its own history. */
  lemma {:induction false} OfferedInOrder(cs: seq<Connector>, c: Connector, stats: map<string, Stats>,
                                          log: map<string, seq<Entry>>, model: string, now: real)
    requires Mirrors(stats, log)
    ensures Offered([], stats, model, now) == []
    ensures var h := if c.name in log then log[c.name] else [];
            Offered(cs + [c], stats, model, now) ==
            if (model in c.models || c.models == {}) && Judge(After(h), now) != Refused
            then Offered(cs, stats, model, now) + [c.name]
            else Offered(cs, stats, model, now)
  {
    assert (cs + [c])[..|cs|] == cs;
    StatsAreOfHistory(stats, log, c.name);
  }

  /** Exactly those are offered that support the model and that their history does
      not refuse. */
  lemma {:induction false} OfferedMeaning(cs: seq<Connector>, stats: map<string, Stats>, log: map<string, seq<Entry>>,
                                          model: string, now: real, p: string)
    requires Mirrors(stats, log)
    ensures p in Offered(cs, stats, model, now) <==>
            Asked(cs, model, p) && Judge(After(if p in log then log[p] else []), now) != Refused
  {
    StatsAreOfHistory(stats, log, p);
    if cs != [] {
      var front, c := cs[..|cs| - 1], cs[|cs| - 1];
      OfferedMeaning(front, stats, log, model, now, p);
      assert Asked(cs, model, p) <==> Asked(front, model, p) || (c.name == p && Supports(c, model)) by {
        if Asked(front, model, p) {
          var j :| 0 <= j < |front| && front[j].name == p && Supports(front[j], model);
          assert cs[j] == front[j];
        }
      }
    }
  }

  // ---- what the strategies select

  /** Preferences are tried one by one. */
  lemma {:induction false} PreferencesInOrder(p: string, providers: seq<string>, x: string, rest: seq<string>)
    requires providers != []
    ensures FirstPreferred(p, providers, []) <==> p == providers[0]
    ensures FirstPreferred(p, providers, [x] + rest) <==>
            if x in providers then p == x else FirstPreferred(p, providers, rest)
  {
    var all := [x] + rest;
    assert all[0] == x && forall i :: 0 <= i < |rest| ==> all[i + 1] == rest[i];
    assert forall i :: 1 <= i < |all| ==> all[i] == rest[i - 1];
  }

  function Turns(model: string, n: nat): map<string, nat> {
    if n == 0 then map[] else Counted(Turns(model, n - 1), model)
  }

  lemma {:induction false} TurnsAreCounted(model: string, n: nat)
    ensures n > 0 ==> Turns(model, n) == map[model + "_rr" := n]
  {
    if n > 1 {
      TurnsAreCounted(model, n - 1);
    }
  }

  /** Round robin goes through the providers, one a turn. */
  lemma {:induction false} TurnsGoRound(model: string, available: seq<string>, stats: map<string, Stats>,
                                        configs: map<string, ModelConfig>, n: nat, p: string)
    requires available != []
    ensures Picks(RoundRobin, model, available, stats, configs, Turns(model, n), p) <==> p == available[n % |available|]
  {
    TurnsAreCounted(model, n);
  }

  /** By cost, what is selected has no dearer price than any other, and none only
      if no other has one; by latency and load, the lowest over the histories. */
  lemma {:induction false} PickedIsLeast(model: string, available: seq<string>, stats: map<string, Stats>,
                                         log: map<string, seq<Entry>>, configs: map<string, ModelConfig>,
                                         counters: map<string, nat>, p: string, q: string)
    requires available != [] && q in available && p in log && q in log && Mirrors(stats, log)
    ensures Picks(CostOptimized, model, available, stats, configs, counters, p) ==>
              if model !in configs then p == available[0]
              else q in configs[model].cost ==>
                p in configs[model].cost && configs[model].cost[p] <= configs[model].cost[q]
    ensures Picks(LatencyOptimized, model, available, stats, configs, counters, p) ==>
              After(log[p]).latency <= After(log[q]).latency
    ensures Picks(LoadBalanced, model, available, stats, configs, counters, p) ==>
              Count(log[p], (e: Entry) => e.Outcome? && !e.success) + 10 * TrailingFailures(log[p]) <=
              Count(log[q], (e: Entry) => e.Outcome? && !e.success) + 10 * TrailingFailures(log[q])
  {
    LoadMeaning(stats, p, log[p]);
    LoadMeaning(stats, q, log[q]);
    var j :| 0 <= j < |available| && available[j] == q;
  }
}
