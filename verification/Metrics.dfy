// telemetry/telemetry.go, Metrics: request counts and latency, in all and per engine.
module Telemetry {

  datatype Stats = Stats(requests: int, successes: int, errors: int, latency: int) {
    function Plus(s: Stats): Stats {
      Stats(requests + s.requests, successes + s.successes, errors + s.errors, latency + s.latency)
    }
  }

  const ZERO := Stats(0, 0, 0, 0)

  // One RecordRequest call.
  datatype Record = Record(engine: string, success: bool, latency: int) {
    function Worth(): Stats {
      Stats(1, if success then 1 else 0, if success then 0 else 1, latency)
    }
  }

  datatype Report = Report(total: Stats, perEngine: map<string, Stats>, timeouts: int)

  const EMPTY := Report(ZERO, map[], 0)

  function StatsOf(m: map<string, Stats>, engine: string): Stats {
    if engine in m then m[engine] else ZERO
  }

  function Apply(r: Report, rec: Record): Report {
    r.(total := r.total.Plus(rec.Worth()),
       perEngine := r.perEngine[rec.engine := StatsOf(r.perEngine, rec.engine).Plus(rec.Worth())])
  }

  function Run(r: Report, recs: seq<Record>): Report {
    if recs == [] then r else Apply(Run(r, recs[..|recs| - 1]), recs[|recs| - 1])
  }

  // ---- conservation ----

  // All engines together.
  ghost function Sum(m: map<string, Stats>): Stats
    decreases |m|
  {
    if m == map[] then ZERO
    else
      var engine :| engine in m;
      m[engine].Plus(Sum(m - {engine}))
  }

  lemma PlusSwaps(a: Stats, b: Stats, c: Stats)
    ensures a.Plus(b.Plus(c)) == b.Plus(a.Plus(c))
  {
  }

  // It does not matter which engine is taken first.
  lemma {:induction false} SumSplits(m: map<string, Stats>, engine: string)
    requires engine in m
    ensures Sum(m) == m[engine].Plus(Sum(m - {engine}))
    decreases |m|
  {
    var first :| first in m && Sum(m) == m[first].Plus(Sum(m - {first}));
    if first != engine {
      var rest := m - {first} - {engine};
      assert rest == m - {engine} - {first};
      SumSplits(m - {first}, engine);
      SumSplits(m - {engine}, first);
      assert Sum(m - {first}) == m[engine].Plus(Sum(rest));
      assert Sum(m - {engine}) == m[first].Plus(Sum(rest));
      PlusSwaps(m[first], m[engine], Sum(rest));
    }
  }

  lemma SumAfterRecord(m: map<string, Stats>, engine: string, s: Stats)
    ensures Sum(m[engine := StatsOf(m, engine).Plus(s)]) == Sum(m).Plus(s)
  {
    var m' := m[engine := StatsOf(m, engine).Plus(s)];
    SumSplits(m', engine);
    if engine in m {
      SumSplits(m, engine);
      assert m' - {engine} == m - {engine};
    } else {
      assert m' - {engine} == m;
    }
  }

  // Every request is a success or an error, and every total is the sum over the engines.
  lemma {:induction false} TotalsAreSums(recs: seq<Record>)
    ensures Run(EMPTY, recs).total == Sum(Run(EMPTY, recs).perEngine)
    ensures var total := Run(EMPTY, recs).total; total.requests == |recs| == total.successes + total.errors
  {
    if recs != [] {
      var before, rec := recs[..|recs| - 1], recs[|recs| - 1];
      TotalsAreSums(before);
      SumAfterRecord(Run(EMPTY, before).perEngine, rec.engine, rec.Worth());
    }
  }

  // What a run of records says of one engine, request by request.
  function CountOf(recs: seq<Record>, engine: string, success: bool): int {
    if recs == [] then 0
    else
      var rec := recs[|recs| - 1];
      CountOf(recs[..|recs| - 1], engine, success) + (if rec.engine == engine && rec.success == success then 1 else 0)
  }

  function LatencyOf(recs: seq<Record>, engine: string): int {
    if recs == [] then 0
    else
      var rec := recs[|recs| - 1];
      LatencyOf(recs[..|recs| - 1], engine) + (if rec.engine == engine then rec.latency else 0)
  }

  function LatencyOfAll(recs: seq<Record>): int {
    if recs == [] then 0 else LatencyOfAll(recs[..|recs| - 1]) + recs[|recs| - 1].latency
  }

  // An engine's counters hold its successes, its other requests and the time they took, and
  // the totals the time that all took.
  lemma {:induction false} CountersAreExact(recs: seq<Record>, engine: string)
    ensures var s, f := CountOf(recs, engine, true), CountOf(recs, engine, false);
      StatsOf(Run(EMPTY, recs).perEngine, engine) == Stats(s + f, s, f, LatencyOf(recs, engine))
    ensures Run(EMPTY, recs).total.latency == LatencyOfAll(recs)
    ensures Run(EMPTY, recs).timeouts == 0
  {
    if recs != [] {
      CountersAreExact(recs[..|recs| - 1], engine);
    }
  }

  lemma UpdatedTwice(m: map<string, Stats>, engine: string, a: Stats, b: Stats)
    ensures m[engine := a][engine := b] == m[engine := b]
  {
  }

  // ---- the collector itself ----

  class EngineMetrics {
    var requestCount: int
    var successCount: int
    var errorCount: int
    var totalLatency: int

    constructor (s: Stats)
      ensures Value() == s
    {
      requestCount, successCount, errorCount, totalLatency := s.requests, s.successes, s.errors, s.latency;
    }

    ghost function Value(): Stats
      reads this
    {
      Stats(requestCount, successCount, errorCount, totalLatency)
    }

    method Count(success: bool, latency: int)
      modifies this
      ensures Value() == old(Value()).Plus(Record("", success, latency).Worth())
    {
      requestCount := requestCount + 1;
      totalLatency := totalLatency + latency;
      if success {
        successCount := successCount + 1;
      } else {
        errorCount := errorCount + 1;
      }
    }
  }

  class Metrics {
    var requestCount: int
    var successCount: int
    var errorCount: int
    var timeoutCount: int
    var totalLatency: int
    var perEngine: map<string, EngineMetrics>
    ghost var counters: set<EngineMetrics>  // all of them

    // No two engines share their counters.
    ghost predicate Valid()
      reads `perEngine, `counters
    {
      && (forall k | k in perEngine :: perEngine[k] in counters)
      && forall k, l | k in perEngine && l in perEngine && k != l :: perEngine[k] != perEngine[l]
    }

    ghost function Engines(): map<string, Stats>
      requires Valid()
      reads `perEngine, `counters, counters
    {
      map k | k in perEngine :: perEngine[k].Value()
    }

    ghost function View(): Report
      requires Valid()
      reads this, counters
    {
      Report(Stats(requestCount, successCount, errorCount, totalLatency), Engines(), timeoutCount)
    }

    constructor ()
      ensures Valid() && perEngine == map[] && counters == {} && View() == EMPTY
    {
      requestCount, successCount, errorCount, timeoutCount, totalLatency := 0, 0, 0, 0, 0;
      perEngine, counters := map[], {};
    }

    constructor With(total: Stats, timeouts: int, perEngine: map<string, EngineMetrics>)
      requires forall k, l | k in perEngine && l in perEngine && k != l :: perEngine[k] != perEngine[l]
      ensures Valid() && this.perEngine == perEngine && counters == perEngine.Values
      ensures View() == Report(total, Engines(), timeouts)
    {
      requestCount, successCount, errorCount := total.requests, total.successes, total.errors;
      totalLatency := total.latency;
      timeoutCount, this.perEngine, counters := timeouts, perEngine, perEngine.Values;
    }

    // The engine's counters, made if there are none.
    method CountersOf(engine: string) returns (em: EngineMetrics)
      requires Valid()
      modifies `perEngine, `counters
      ensures Valid() && engine in perEngine && perEngine[engine] == em
      ensures em.Value() == StatsOf(old(Engines()), engine)
      ensures forall m | m in counters && m !in old(counters) :: fresh(m)
      ensures Engines() == old(Engines())[engine := StatsOf(old(Engines()), engine)]
    {
      if engine in perEngine {
        em := perEngine[engine];
      } else {
        em := new EngineMetrics(ZERO);
        perEngine, counters := perEngine[engine := em], counters + {em};
      }
    }

    method CountTotals(success: bool, latency: int)
      requires Valid()
      modifies `requestCount, `successCount, `errorCount, `totalLatency
      ensures View() == old(View()).(total := old(View()).total.Plus(Record("", success, latency).Worth()))
    {
      requestCount := requestCount + 1;
      totalLatency := totalLatency + latency;
      if success {
        successCount := successCount + 1;
      } else {
        errorCount := errorCount + 1;
      }
    }

    twostate lemma OneChanged(engine: string)
      requires old(Valid()) && old(allocated(this))
      requires unchanged(`perEngine) && unchanged(`counters) && engine in perEngine
      requires forall em | em in counters && em != perEngine[engine] :: unchanged(em)
      ensures Engines() == old(Engines())[engine := perEngine[engine].Value()]
    {
      var m := old(Engines())[engine := perEngine[engine].Value()];
      assert Engines().Keys == m.Keys;
      forall k | k in perEngine && k != engine
        ensures Engines()[k] == old(Engines())[k]
      {
        assert perEngine[k] in counters && perEngine[k] != perEngine[engine];
      }
    }

    method CountEngine(engine: string, success: bool, latency: int)
      requires Valid()
      modifies `perEngine, `counters, counters
      ensures Valid() && forall m | m in counters && m !in old(counters) :: fresh(m)
      ensures Engines() ==
        old(Engines())[engine := StatsOf(old(Engines()), engine).Plus(Record(engine, success, latency).Worth())]
    {
      var em := CountersOf(engine);
      label Found:
      em.Count(success, latency);
      OneChanged@Found(engine);
      UpdatedTwice(old(Engines()), engine, StatsOf(old(Engines()), engine), em.Value());
    }

    method RecordRequest(engine: string, success: bool, latency: int)
      requires Valid()
      modifies this, counters
      ensures Valid() && forall m | m in counters && m !in old(counters) :: fresh(m)
      ensures View() == Apply(old(View()), Record(engine, success, latency))
    {
      CountTotals(success, latency);
      CountEngine(engine, success, latency);
    }

    method RecordTimeout()
      requires Valid()
      modifies `timeoutCount
      ensures View() == old(View()).(timeouts := old(View()).timeouts + 1)
    {
      timeoutCount := timeoutCount + 1;
    }

    // Copies of all counters.
    method CopyEngines() returns (copies: map<string, EngineMetrics>)
      requires Valid()
      ensures fresh(copies.Values) && copies.Keys == perEngine.Keys
      ensures forall k, l | k in copies && l in copies && k != l :: copies[k] != copies[l]
      ensures forall k | k in copies :: copies[k].Value() == perEngine[k].Value()
    {
      copies := map[];
      var rest := perEngine.Keys;
      while rest != {}
        invariant rest <= perEngine.Keys && copies.Keys == perEngine.Keys - rest
        invariant forall k | k in copies :: fresh(copies[k]) && copies[k].Value() == perEngine[k].Value()
        invariant forall k, l | k in copies && l in copies && k != l :: copies[k] != copies[l]
        decreases rest
      {
        var k :| k in rest;
        var v := perEngine[k];
        var copied := new EngineMetrics(Stats(v.requestCount, v.successCount, v.errorCount, v.totalLatency));
        copies := copies[k := copied];
        rest := rest - {k};
      }
    }

    // A copy that shares nothing with the original.
    method Snapshot() returns (snapshot: Metrics)
      requires Valid()
      ensures fresh(snapshot) && snapshot.Valid() && fresh(snapshot.counters)
      ensures snapshot.View() == View()
    {
      var copies := CopyEngines();
      snapshot := new Metrics.With(
        Stats(requestCount, successCount, errorCount, totalLatency), timeoutCount, copies);
      assert snapshot.Engines() == Engines();
    }
  }

  // Later requests, any number of them, do not show in a snapshot.
  method SnapshotStays(m: Metrics, recs: seq<Record>) returns (snapshot: Metrics)
    requires m.Valid()
    modifies m, m.counters
    ensures m.Valid() && snapshot.Valid() && m != snapshot && m.counters !! snapshot.counters
    ensures fresh(snapshot) && fresh(snapshot.counters) && fresh(m.counters - old(m.counters))
    ensures snapshot.View() == old(m.View())
    ensures m.View() == Run(old(m.View()), recs)
  {
    ghost var was := m.View();
    snapshot := m.Snapshot();
    for i := 0 to |recs|
      invariant m.Valid() && snapshot.Valid() && m.counters !! snapshot.counters
      invariant fresh(snapshot.counters) && fresh(m.counters - old(m.counters))
      invariant snapshot.View() == was && m.View() == Run(was, recs[..i])
    {
      m.RecordRequest(recs[i].engine, recs[i].success, recs[i].latency);
      assert recs[..i + 1][..i] == recs[..i];
    }
    assert recs[..|recs|] == recs;
  }
}
