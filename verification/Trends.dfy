/** The trend log and the moving average `detect_from_trends` compares with the champion. */
module Trends {
  import opened Numbers
  import opened Strings
  import opened Wrappers
  import opened Dict
  import opened Drift
  import opened Champion
  import ExperimentLog

  type Metrics = map<string, Value>

  datatype TrendRow = TrendRow(suite: string, metrics: Metrics)

  function OfSuite(rows: seq<TrendRow>, suite: Option<string>): seq<TrendRow> {
    if rows == [] then []
    else
      OfSuite(rows[..|rows| - 1], suite)
      + if suite.Some? && suite.value != "" && rows[|rows| - 1].suite != suite.value then [] else [rows[|rows| - 1]]
  }

  class EvalTrendStore {
    var rows: seq<TrendRow>

    constructor ()
      ensures rows == []
    {
      rows := [];
    }

    method Record(suite: string, metrics: Metrics)
      modifies this
      ensures rows == old(rows) + [TrendRow(suite, metrics)]
    {
      rows := rows + [TrendRow(suite, metrics)];
    }

    method ListRows(suite: Option<string>, limit: int) returns (r: seq<TrendRow>)
      ensures r == ExperimentLog.Tail(OfSuite(rows, suite), limit)
    {
      var kept: seq<TrendRow> := [];
      for i := 0 to |rows|
        invariant kept == OfSuite(rows[..i], suite)
      {
        assert rows[..i + 1][..i] == rows[..i];
        if suite.Some? && suite.value != "" && rows[i].suite != suite.value { continue; }
        kept := kept + [rows[i]];
      }
      assert rows[..|rows|] == rows;
      r := ExperimentLog.Tail(kept, limit);
    }

    /** `seed_demo_trends`: an empty log receives the demo points, another stays as it is. */
    method SeedDemo() returns (seeded: nat)
      modifies this
      ensures rows == AfterSeeding(old(rows)) && seeded == |rows| - |old(rows)|
    {
      hide OfSuite, DEMO;
      var listed := ListRows(None, 90);
      EverySuite(rows);
      if listed != [] { return 0; }
      for i := 0 to |DEMO|
        invariant rows == Seeded(DEMO[..i]) && |rows| == i
      {
        assert DEMO[..i + 1][..i] == DEMO[..i];
        Record("golden_nightly", DEMO[i]);
      }
      assert DEMO[..|DEMO|] == DEMO;
      seeded := |DEMO|;
    }
  }

  function DemoPoint(
    precision: real, recall: real, hallucination: real, ragas: real, pass: real, errors: real, latency: real): Metrics
  {
    map["precision" := Num(precision), "recall" := Num(recall), "hallucination_rate" := Num(hallucination),
        "ragas_quality_score" := Num(ragas), "hitl_case_pass_rate" := Num(pass),
        "avg_agent_error_rate" := Num(errors), "avg_agent_latency_ms" := Num(latency)]
  }

  const DEMO: seq<Metrics> := [
    DemoPoint(0.82, 0.88, 0.08, 0.76, 0.72, 0.04, 780.0),
    DemoPoint(0.86, 0.91, 0.05, 0.81, 0.78, 0.03, 720.0),
    DemoPoint(0.89, 0.93, 0.04, 0.84, 0.83, 0.02, 690.0),
    DemoPoint(0.91, 0.94, 0.03, 0.86, 0.88, 0.018, 650.0),
    DemoPoint(0.92, 0.95, 0.025, 0.87, 0.90, 0.015, 630.0)]

  function AfterSeeding(rows: seq<TrendRow>): seq<TrendRow> {
    if rows == [] then Seeded(DEMO) else rows
  }

  function Seeded(demo: seq<Metrics>): seq<TrendRow> {
    if demo == [] then [] else Seeded(demo[..|demo| - 1]) + [TrendRow("golden_nightly", demo[|demo| - 1])]
  }

  lemma OfSuiteSnoc(rows: seq<TrendRow>, row: TrendRow, suite: Option<string>)
    ensures OfSuite(rows + [row], suite) ==
            OfSuite(rows, suite) + if suite == None || suite == Some("") || suite == Some(row.suite) then [row] else []
  {
    assert (rows + [row])[..|rows|] == rows;
  }

  lemma {:induction false} EverySuite(rows: seq<TrendRow>)
    ensures OfSuite(rows, None) == rows
  {
    if rows != [] { EverySuite(rows[..|rows| - 1]); }
  }

  // ----- the moving average

  function AllKeys(rows: seq<TrendRow>): set<string> {
    if rows == [] then {} else AllKeys(rows[..|rows| - 1]) + rows[|rows| - 1].metrics.Keys
  }

  predicate HasNumber(row: TrendRow, key: string) {
    key in row.metrics && row.metrics[key].Num?
  }

  /** The numbers of one metric, row by row. */
  function Vals(rows: seq<TrendRow>, key: string): seq<real> {
    if rows == [] then []
    else
      var last := rows[|rows| - 1];
      Vals(rows[..|rows| - 1], key) + if HasNumber(last, key) then [last.metrics[key].value] else []
  }

  function Mean(vals: seq<real>): real
    requires vals != []
  {
    Sum(vals) / |vals| as real
  }

  function Averages(rows: seq<TrendRow>): Metrics {
    map k | k in AllKeys(rows) && Vals(rows, k) != [] :: Num(Mean(Vals(rows, k)))
  }

  // ----- what the average is

  /** The rows that have a number for a metric. */
  function Numeric(rows: seq<TrendRow>, key: string): set<int> {
    set i | 0 <= i < |rows| && HasNumber(rows[i], key)
  }

  lemma ValsSnoc(rows: seq<TrendRow>, row: TrendRow, key: string)
    ensures Vals(rows + [row], key) ==
            Vals(rows, key) + if HasNumber(row, key) then [row.metrics[key].value] else []
  {
    assert (rows + [row])[..|rows|] == rows;
  }

  lemma {:induction false} ValsConcat(a: seq<TrendRow>, b: seq<TrendRow>, key: string)
    ensures Vals(a + b, key) == Vals(a, key) + Vals(b, key)
  {
    if b == [] {
      assert a + b == a && Vals([], key) == [];
    } else {
      var init, last := b[..|b| - 1], b[|b| - 1];
      ValsSnoc(a + init, last, key);
      ValsSnoc(init, last, key);
      hide Vals;
      ValsConcat(a, init, key);
      assert b == init + [last] && a + b == (a + init) + [last];
      Assoc(Vals(a, key), Vals(init, key), if HasNumber(last, key) then [last.metrics[key].value] else []);
    }
  }

  lemma {:induction false} ValsCounted(rows: seq<TrendRow>, key: string)
    ensures |Vals(rows, key)| == |Numeric(rows, key)|
  {
    if rows != [] {
      var init, n := rows[..|rows| - 1], |rows| - 1;
      ValsCounted(init, key);
      assert Numeric(rows, key) == Numeric(init, key) + if HasNumber(rows[n], key) then {n} else {};
    }
  }

  lemma {:induction false} ValsNeedKey(rows: seq<TrendRow>, key: string)
    requires Vals(rows, key) != []
    ensures key in AllKeys(rows)
  {
    if !HasNumber(rows[|rows| - 1], key) { ValsNeedKey(rows[..|rows| - 1], key); }
  }

  /** A metric is averaged exactly when some row has a number for it. */
  lemma AveragedIff(rows: seq<TrendRow>, key: string)
    ensures key in Averages(rows) <==> Numeric(rows, key) != {}
    ensures key in Averages(rows) ==> Averages(rows)[key] == Num(Mean(Vals(rows, key)))
  {
    hide AllKeys, Vals, Numeric, Mean;
    ValsCounted(rows, key);
    if Vals(rows, key) != [] { ValsNeedKey(rows, key); }
  }

  /** The average of one row is its own numbers. */
  lemma AverageOfOne(row: TrendRow, key: string)
    ensures key in Averages([row]) <==> HasNumber(row, key)
    ensures key in Averages([row]) ==> Averages([row])[key] == row.metrics[key]
  {
    assert Vals([], key) == [];
    ValsSnoc([], row, key);
    assert [] + [row] == [row];
    hide Vals, Averages;
    AveragedIff([row], key);
    ValsCounted([row], key);
    if HasNumber(row, key) {
      assert Vals([row], key) == [row.metrics[key].value];
      SumOne(row.metrics[key].value);
    }
  }

  /** A metric's average times how many rows count for it; nothing when no row does. */
  ghost function Weight(rows: seq<TrendRow>, key: string): real {
    if key in Averages(rows) then Times(|Numeric(rows, key)|, Averages(rows)[key].value) else 0.0
  }

  /** Joining rows adds up the numbers counted and the average times their number. */
  lemma AverageJoins(a: seq<TrendRow>, b: seq<TrendRow>, key: string)
    ensures key in Averages(a + b) <==> key in Averages(a) || key in Averages(b)
    ensures |Numeric(a + b, key)| == |Numeric(a, key)| + |Numeric(b, key)|
    ensures Weight(a + b, key) == Weight(a, key) + Weight(b, key)
  {
    hide Numeric, Vals, Averages, Weight;
    ValsConcat(a, b, key);
    SumConcat(Vals(a, key), Vals(b, key));
    WeightIsSum(a, key);
    WeightIsSum(b, key);
    WeightIsSum(a + b, key);
  }

  lemma WeightIsSum(rows: seq<TrendRow>, key: string)
    ensures Weight(rows, key) == Sum(Vals(rows, key))
    ensures key in Averages(rows) <==> Vals(rows, key) != []
    ensures |Numeric(rows, key)| == |Vals(rows, key)|
  {
    assert Sum([]) == 0.0;
    hide Numeric, Vals, Averages, Sum, Mean, Times;
    AveragedIff(rows, key);
    ValsCounted(rows, key);
    if Vals(rows, key) != [] { MeanTimesCount(Vals(rows, key)); }
  }

  lemma MeanTimesCount(vals: seq<real>)
    requires vals != []
    ensures Times(|vals|, Mean(vals)) == Sum(vals)
  {
    hide Sum;
    QuotientTimes(Sum(vals), |vals| as real);
  }

  method Collect(rows: seq<TrendRow>, key: string) returns (vals: seq<real>)
    ensures vals == Vals(rows, key)
  {
    vals := [];
    for i := 0 to |rows|
      invariant vals == Vals(rows[..i], key)
    {
      assert rows[..i + 1][..i] == rows[..i];
      if key in rows[i].metrics && !rows[i].metrics[key].Null? {
        if rows[i].metrics[key].Num? {
          vals := vals + [rows[i].metrics[key].value];
        }
      }
    }
    assert rows[..|rows|] == rows;
  }

  method AverageRows(rows: seq<TrendRow>) returns (avg: Metrics)
    ensures avg == Averages(rows)
  {
    var keys: set<string> := {};
    for i := 0 to |rows|
      invariant keys == AllKeys(rows[..i])
    {
      assert rows[..i + 1][..i] == rows[..i];
      keys := keys + rows[i].metrics.Keys;
    }
    assert rows[..|rows|] == rows;
    hide AllKeys, Vals, Mean;
    avg := map[];
    var left := keys;
    while left != {}
      invariant left <= keys
      invariant avg == map k | k in keys - left && Vals(rows, k) != [] :: Num(Mean(Vals(rows, k)))
      decreases left
    {
      var k :| k in left;
      left := left - {k};
      var vals := Collect(rows, k);
      if vals != [] {
        avg := avg[k := Num(Mean(vals))];
      }
    }
  }

  /** The drift log: every report that found drift. */
  class DriftLog {
    var events: seq<Report>

    constructor ()
      ensures events == []
    {
      events := [];
    }

    method LogDriftEvent(report: Report)
      modifies this
      ensures events == old(events) + [report]
    {
      events := events + [report];
    }
  }

  /** Averages the looked-back rows and compares them with the champion; drift is logged. */
  method DetectFromTrends(store: EvalTrendStore, champion: ChampionBaselineStore, log: DriftLog, lookback: int)
    returns (report: Report)
    requires champion.Current().metrics.Valid()
    modifies store, champion, log
    ensures store.rows == AfterSeeding(old(store.rows)) && champion.file == Some(old(champion.Current()))
    ensures
      var average := Averages(ExperimentLog.Tail(store.rows, lookback));
      var base := old(champion.Current());
      var status := Status(base.metrics, average, DEFAULT_THRESHOLDS);
      report == Report(status, AllSignals(base.metrics, average, DEFAULT_THRESHOLDS), base.version, Playbook(status))
    ensures log.events == old(log.events) + if report.status == NONE then [] else [report]
  {
    hide DEFAULT_THRESHOLDS, OfSuite, Status, AllSignals, AfterSeeding, Playbook;
    ghost var base := champion.Current().metrics;
    var _ := store.SeedDemo();
    var rows := store.ListRows(None, lookback);
    EverySuite(store.rows);
    if rows == [] {
      assert Averages(rows) == map[];
      StatusBoundedBy(base, map[], DEFAULT_THRESHOLDS, 0);
      report := DetectDrift(champion, map[], None, map[]);
      return;
    }
    var avg := AverageRows(rows);
    report := DetectDrift(champion, avg, None, map[]);
    if report.status != NONE { log.LogDriftEvent(report); }
  }

  // ----- averaging neither invents nor hides drift

  ghost predicate Between(vals: seq<real>, lo: real, hi: real) {
    forall i :: 0 <= i < |vals| ==> lo <= vals[i] <= hi
  }

  lemma {:induction false} SumBetween(vals: seq<real>, lo: real, hi: real)
    requires Between(vals, lo, hi)
    ensures |vals| as real * lo <= Sum(vals) <= |vals| as real * hi
  {
    if vals != [] {
      SumBetween(vals[..|vals| - 1], lo, hi);
      OneMore(|vals| - 1, lo);
      OneMore(|vals| - 1, hi);
    }
  }

  lemma {:induction false} Extremes(vals: seq<real>) returns (lo: real, hi: real)
    requires vals != []
    ensures lo in vals && hi in vals && Between(vals, lo, hi)
  {
    if |vals| == 1 {
      lo, hi := vals[0], vals[0];
    } else {
      var init, last := vals[..|vals| - 1], vals[|vals| - 1];
      lo, hi := Extremes(init);
      assert forall v :: v in init ==> v in vals;
      assert last in vals;
      if last < lo { lo := last; }
      if last > hi { hi := last; }
    }
  }

  lemma MeanBetween(vals: seq<real>) returns (lo: real, hi: real)
    requires vals != []
    ensures lo in vals && hi in vals && lo <= Mean(vals) <= hi
  {
    lo, hi := Extremes(vals);
    SumBetween(vals, lo, hi);
    DivideBounds(|vals| as real, lo, Sum(vals), hi);
  }

  lemma DivideBounds(n: real, lo: real, total: real, hi: real)
    requires n > 0.0 && n * lo <= total <= n * hi
    ensures lo <= total / n <= hi
  {
  }

  lemma {:induction false} ValsComeFromRows(rows: seq<TrendRow>, key: string, v: real)
    requires v in Vals(rows, key)
    ensures exists r :: r in rows && HasNumber(r, key) && r.metrics[key].value == v
    ensures key in AllKeys(rows)
  {
    var init, last := rows[..|rows| - 1], rows[|rows| - 1];
    if v in Vals(init, key) {
      ValsComeFromRows(init, key, v);
      var r :| r in init && HasNumber(r, key) && r.metrics[key].value == v;
      assert r in rows;
    } else {
      assert last in rows && HasNumber(last, key);
    }
  }

  /**
   Every comparable metric's severity on the average lies between its severity in two of the
   averaged rows: averaging can neither invent drift nor hide it below every row.
   */
  lemma AverageSeverityBetween(
    base: Dict<Value>, rows: seq<TrendRow>, thresholds: map<string, Limits>, metric: string)
    returns (mild: TrendRow, harsh: TrendRow)
    requires Comparable(metric, base, Averages(rows))
    ensures mild in rows && harsh in rows
    ensures Comparable(metric, base, mild.metrics) && Comparable(metric, base, harsh.metrics)
    ensures Rank(SeverityOf(metric, base, mild.metrics, thresholds))
            <= Rank(SeverityOf(metric, base, Averages(rows), thresholds))
            <= Rank(SeverityOf(metric, base, harsh.metrics, thresholds))
  {
    hide Judge, LimitsFor, AllKeys, Vals, Mean;
    var vals := Vals(rows, metric);
    var lo, hi := MeanBetween(vals);
    ValsComeFromRows(rows, metric, lo);
    ValsComeFromRows(rows, metric, hi);
    var low :| low in rows && HasNumber(low, metric) && low.metrics[metric].value == lo;
    var high :| high in rows && HasNumber(high, metric) && high.metrics[metric].value == hi;
    mild, harsh := low, high;
    if Worsening(metric, lo, hi) < 0.0 { mild, harsh := high, low; }
    var b, t, m := base.values[metric].value, LimitsFor(metric, thresholds), Mean(vals);
    WorseningBetween(metric, b, lo, m, hi);
    JudgeMonotone(metric, b, mild.metrics[metric].value, b, m, t);
    JudgeMonotone(metric, b, m, b, harsh.metrics[metric].value, t);
  }

  lemma WorseningBetween(metric: string, b: real, lo: real, m: real, hi: real)
    requires lo <= m <= hi
    ensures Worsening(metric, lo, hi) >= 0.0 ==>
              Worsening(metric, b, lo) <= Worsening(metric, b, m) <= Worsening(metric, b, hi)
    ensures Worsening(metric, lo, hi) < 0.0 ==>
              Worsening(metric, b, hi) <= Worsening(metric, b, m) <= Worsening(metric, b, lo)
  {
    hide HIGHER_IS_WORSE;
  }

  /** The status on the average never exceeds the status of the worst averaged row. */
  lemma AverageStatusBounded(base: Dict<Value>, rows: seq<TrendRow>, thresholds: map<string, Limits>, bound: nat)
    requires base.Valid()
    requires forall r :: r in rows ==> Rank(Status(base, r.metrics, thresholds)) <= bound
    ensures Rank(Status(base, Averages(rows), thresholds)) <= bound
  {
    hide Status, Averages, Judge;
    forall m | m in base.values ensures Rank(SeverityOf(m, base, Averages(rows), thresholds)) <= bound {
      if Comparable(m, base, Averages(rows)) {
        var _, harsh := AverageSeverityBetween(base, rows, thresholds, m);
        StatusIsMaximum(base, harsh.metrics, thresholds);
      }
    }
    StatusBoundedBy(base, Averages(rows), thresholds, bound);
  }
}
