/** What the shipped data says together: the demo trend points against the seeded champion. */
module FreshInstallation {
  import opened Numbers
  import opened Strings
  import opened Dict
  import opened Drift
  import opened Champion
  import opened Trends
  import ExperimentLog

  lemma ValsOfFive(rows: seq<TrendRow>, key: string, v: seq<real>)
    requires |rows| == |v| == 5
    requires forall i :: 0 <= i < 5 ==> HasNumber(rows[i], key) && rows[i].metrics[key].value == v[i]
    ensures Vals(rows, key) == v
  {
    ValsOfPrefix(rows, key, v, 5);
    assert rows[..5] == rows && v[..5] == v;
  }

  lemma {:induction false} ValsOfPrefix(rows: seq<TrendRow>, key: string, v: seq<real>, n: nat)
    requires n <= |rows| == |v|
    requires forall i :: 0 <= i < n ==> HasNumber(rows[i], key) && rows[i].metrics[key].value == v[i]
    ensures Vals(rows[..n], key) == v[..n]
  {
    if n > 0 {
      ValsOfPrefix(rows, key, v, n - 1);
      assert rows[..n] == rows[..n - 1] + [rows[n - 1]];
      ValsSnoc(rows[..n - 1], rows[n - 1], key);
    }
  }

  lemma SumOfFive(a: real, b: real, c: real, d: real, e: real)
    ensures Sum([a, b, c, d, e]) == a + b + c + d + e
  {
    hide Sum;
    SumOne(a);
    SumOne(b);
    SumOne(c);
    SumOne(d);
    SumOne(e);
    SumConcat([a], [b]);
    SumConcat([a, b], [c]);
    SumConcat([a, b, c], [d]);
    SumConcat([a, b, c, d], [e]);
    assert [a] + [b] == [a, b] && [a, b] + [c] == [a, b, c];
    assert [a, b, c] + [d] == [a, b, c, d] && [a, b, c, d] + [e] == [a, b, c, d, e];
  }

  lemma AverageOfFive(rows: seq<TrendRow>, key: string, a: real, b: real, c: real, d: real, e: real)
    requires |rows| == 5
    requires forall i :: 0 <= i < 5 ==>
               HasNumber(rows[i], key) && rows[i].metrics[key].value == [a, b, c, d, e][i]
    ensures key in Averages(rows) && Averages(rows)[key] == Num((a + b + c + d + e) / 5.0)
  {
    hide Vals, Averages, Sum;
    ValsOfFive(rows, key, [a, b, c, d, e]);
    SumOfFive(a, b, c, d, e);
    AveragedIff(rows, key);
    ValsCounted(rows, key);
  }

  lemma KeyLengths()
    ensures |"precision"| == 9 && |"recall"| == 6 && |"hallucination_rate"| == 18 && |"ragas_quality_score"| == 19
    ensures |"hitl_case_pass_rate"| == 19 && |"avg_agent_error_rate"| == 20 && |"avg_agent_latency_ms"| == 20
    ensures |"hitl_agree_rate"| == 15 && |"uw_override_rate"| == 16
    ensures "ragas_quality_score"[0] == 'r' && "hitl_case_pass_rate"[0] == 'h'
    ensures "avg_agent_error_rate"[10] == 'e' && "avg_agent_latency_ms"[10] == 'l'
  {
  }

  lemma PointAt(p: real, r: real, h: real, q: real, c: real, e: real, l: real)
    ensures
      var m := DemoPoint(p, r, h, q, c, e, l);
      && "precision" in m && m["precision"] == Num(p)
      && "recall" in m && m["recall"] == Num(r)
      && "hallucination_rate" in m && m["hallucination_rate"] == Num(h)
      && "ragas_quality_score" in m && m["ragas_quality_score"] == Num(q)
      && "hitl_case_pass_rate" in m && m["hitl_case_pass_rate"] == Num(c)
      && "avg_agent_error_rate" in m && m["avg_agent_error_rate"] == Num(e)
      && "avg_agent_latency_ms" in m && m["avg_agent_latency_ms"] == Num(l)
      && "hitl_agree_rate" !in m && "uw_override_rate" !in m
  {
    KeyLengths();
  }

  /** What the log holds after seeding. */
  function DemoRows(): seq<TrendRow> {
    Seeded(DEMO)
  }

  lemma DemoRowsAre()
    ensures |DEMO| == 5 && |DemoRows()| == 5
    ensures forall i :: 0 <= i < 5 ==> DemoRows()[i] == TrendRow("golden_nightly", DEMO[i])
  {
    SeededAt(DEMO);
  }

  lemma {:induction false} SeededAt(demo: seq<Metrics>)
    ensures |Seeded(demo)| == |demo|
    ensures forall i :: 0 <= i < |demo| ==> Seeded(demo)[i] == TrendRow("golden_nightly", demo[i])
  {
    if demo != [] { SeededAt(demo[..|demo| - 1]); }
  }

  lemma DemoPoints()
    ensures |DEMO| == 5
    ensures DEMO[0] == DemoPoint(0.82, 0.88, 0.08, 0.76, 0.72, 0.04, 780.0)
    ensures DEMO[1] == DemoPoint(0.86, 0.91, 0.05, 0.81, 0.78, 0.03, 720.0)
    ensures DEMO[2] == DemoPoint(0.89, 0.93, 0.04, 0.84, 0.83, 0.02, 690.0)
    ensures DEMO[3] == DemoPoint(0.91, 0.94, 0.03, 0.86, 0.88, 0.018, 650.0)
    ensures DEMO[4] == DemoPoint(0.92, 0.95, 0.025, 0.87, 0.90, 0.015, 630.0)
  {
    hide DemoPoint;
  }

  /** The average of the five demo points, metric by metric. */
  lemma DemoAverages()
    ensures
      var avg := Averages(DemoRows());
      && "precision" in avg && avg["precision"] == Num(0.88)
      && "recall" in avg && avg["recall"] == Num(0.922)
      && "hallucination_rate" in avg && avg["hallucination_rate"] == Num(0.045)
      && "ragas_quality_score" in avg && avg["ragas_quality_score"] == Num(0.828)
      && "hitl_case_pass_rate" in avg && avg["hitl_case_pass_rate"] == Num(0.822)
      && "avg_agent_error_rate" in avg && avg["avg_agent_error_rate"] == Num(0.0246)
      && "avg_agent_latency_ms" in avg && avg["avg_agent_latency_ms"] == Num(694.0)
      && "hitl_agree_rate" !in avg && "uw_override_rate" !in avg
  {
    hide DEMO, DemoPoint, Seeded, Averages, Numeric, DemoRows;
    DemoRowsAre();
    DemoPoints();
    var rows := DemoRows();
    PointAt(0.82, 0.88, 0.08, 0.76, 0.72, 0.04, 780.0);
    PointAt(0.86, 0.91, 0.05, 0.81, 0.78, 0.03, 720.0);
    PointAt(0.89, 0.93, 0.04, 0.84, 0.83, 0.02, 690.0);
    PointAt(0.91, 0.94, 0.03, 0.86, 0.88, 0.018, 650.0);
    PointAt(0.92, 0.95, 0.025, 0.87, 0.90, 0.015, 630.0);
    AverageOfFive(rows, "precision", 0.82, 0.86, 0.89, 0.91, 0.92);
    AverageOfFive(rows, "recall", 0.88, 0.91, 0.93, 0.94, 0.95);
    AverageOfFive(rows, "hallucination_rate", 0.08, 0.05, 0.04, 0.03, 0.025);
    AverageOfFive(rows, "ragas_quality_score", 0.76, 0.81, 0.84, 0.86, 0.87);
    AverageOfFive(rows, "hitl_case_pass_rate", 0.72, 0.78, 0.83, 0.88, 0.90);
    AverageOfFive(rows, "avg_agent_error_rate", 0.04, 0.03, 0.02, 0.018, 0.015);
    AverageOfFive(rows, "avg_agent_latency_ms", 780.0, 720.0, 690.0, 650.0, 630.0);
    NotAveraged(rows, "hitl_agree_rate");
    NotAveraged(rows, "uw_override_rate");
  }

  lemma NotAveraged(rows: seq<TrendRow>, key: string)
    requires forall i :: 0 <= i < |rows| ==> key !in rows[i].metrics
    ensures key !in Averages(rows)
  {
    hide Averages;
    AveragedIff(rows, key);
  }

  lemma SeedValues()
    ensures
      var seed := SEED.metrics.values;
      && "precision" in seed && seed["precision"] == Num(0.91)
      && "recall" in seed && seed["recall"] == Num(0.94)
      && "hallucination_rate" in seed && seed["hallucination_rate"] == Num(0.03)
      && "ragas_quality_score" in seed && seed["ragas_quality_score"] == Num(0.86)
      && "hitl_case_pass_rate" in seed && seed["hitl_case_pass_rate"] == Num(0.88)
      && "avg_agent_error_rate" in seed && seed["avg_agent_error_rate"] == Num(0.018)
      && "avg_agent_latency_ms" in seed && seed["avg_agent_latency_ms"] == Num(650.0)
  {
    KeyLengths();
  }

  lemma SeedNames()
    ensures forall m :: m in SEED.metrics.values <==> m in SEED.metrics.order
  {
  }

  lemma SeedOrder()
    ensures
      var order := SEED.metrics.order;
      && |order| == 9
      && |order[0]| == 9 && |order[1]| == 6 && |order[2]| == 18 && |order[3]| == 19 && |order[4]| == 19
      && |order[5]| == 15 && |order[6]| == 20 && |order[7]| == 20 && |order[8]| == 16
      && order[3][0] == 'r' && order[4][0] == 'h' && order[6][10] == 'e' && order[7][10] == 'l'
  {
  }

  lemma SeedIsValid()
    ensures SEED.metrics.Valid()
  {
    hide SEED;
    SeedNames();
    SeedOrder();
    var order, lengths := SEED.metrics.order, [9, 6, 18, 19, 19, 15, 20, 20, 16];
    assert forall i :: 0 <= i < 9 ==> |order[i]| == lengths[i];
    forall i, j | 0 <= i < j < 9 ensures order[i] != order[j] {
      if lengths[i] == lengths[j] { assert (i == 3 && j == 4) || (i == 6 && j == 7); }
    }
  }

  lemma Directions()
    ensures "precision" !in HIGHER_IS_WORSE && "recall" !in HIGHER_IS_WORSE
    ensures "ragas_quality_score" !in HIGHER_IS_WORSE && "hitl_case_pass_rate" !in HIGHER_IS_WORSE
    ensures "hallucination_rate" in HIGHER_IS_WORSE
    ensures "avg_agent_error_rate" in HIGHER_IS_WORSE && "avg_agent_latency_ms" in HIGHER_IS_WORSE
  {
    KeyLengths();
  }

  lemma ShippedLimits()
    ensures LimitsFor("precision", DEFAULT_THRESHOLDS) == Limits(0.03, 0.05, 0.08)
    ensures LimitsFor("recall", DEFAULT_THRESHOLDS) == Limits(0.03, 0.05, 0.08)
    ensures LimitsFor("hallucination_rate", DEFAULT_THRESHOLDS) == Limits(0.02, 0.03, 0.05)
    ensures LimitsFor("ragas_quality_score", DEFAULT_THRESHOLDS) == Limits(0.03, 0.05, 0.08)
    ensures LimitsFor("hitl_case_pass_rate", DEFAULT_THRESHOLDS) == Limits(0.05, 0.08, 0.12)
    ensures LimitsFor("avg_agent_error_rate", DEFAULT_THRESHOLDS) == Limits(0.01, 0.02, 0.04)
    ensures LimitsFor("avg_agent_latency_ms", DEFAULT_THRESHOLDS) == Limits(150.0, 300.0, 600.0)
  {
    KeyLengths();
  }

  /** What drift detection says of each metric of the seeded champion on the average of the demo points. */
  lemma FreshSeverities()
    ensures
      var severity := (m: string) => SeverityOf(m, SEED.metrics, Averages(DemoRows()), DEFAULT_THRESHOLDS);
      && severity("precision") == severity("ragas_quality_score") == severity("hitl_case_pass_rate") == WATCH
      && severity("recall") == severity("hallucination_rate") == NONE
      && severity("avg_agent_error_rate") == severity("avg_agent_latency_ms") == NONE
      && severity("hitl_agree_rate") == severity("uw_override_rate") == NONE
  {
    DemoAverages();
    SeedValues();
    Directions();
    ShippedLimits();
    hide SEED, DEFAULT_THRESHOLDS, HIGHER_IS_WORSE, LimitsFor, DemoRows, Averages, Judge;
    SeverityIff("precision", 0.91, 0.88, Limits(0.03, 0.05, 0.08));
    SeverityIff("recall", 0.94, 0.922, Limits(0.03, 0.05, 0.08));
    SeverityIff("hallucination_rate", 0.03, 0.045, Limits(0.02, 0.03, 0.05));
    SeverityIff("ragas_quality_score", 0.86, 0.828, Limits(0.03, 0.05, 0.08));
    SeverityIff("hitl_case_pass_rate", 0.88, 0.822, Limits(0.05, 0.08, 0.12));
    SeverityIff("avg_agent_error_rate", 0.018, 0.0246, Limits(0.01, 0.02, 0.04));
    SeverityIff("avg_agent_latency_ms", 650.0, 694.0, Limits(150.0, 300.0, 600.0));
  }

  lemma SeedKeys(m: string)
    requires m in SEED.metrics.values
    ensures m == "precision" || m == "recall" || m == "hallucination_rate" || m == "ragas_quality_score"
            || m == "hitl_case_pass_rate" || m == "hitl_agree_rate" || m == "avg_agent_error_rate"
            || m == "avg_agent_latency_ms" || m == "uw_override_rate"
  {
  }

  /** A fresh installation reports drift at once: the five demo points against the seeded champion are at watch. */
  lemma FreshInstallationWatches()
    ensures Status(SEED.metrics, Averages(ExperimentLog.Tail(AfterSeeding([]), 5)), DEFAULT_THRESHOLDS) == WATCH
  {
    DemoRowsAre();
    assert ExperimentLog.Tail(AfterSeeding([]), 5) == DemoRows();
    hide SEED, DEFAULT_THRESHOLDS, DEMO, DemoRows, Averages, SeverityOf, Status, AfterSeeding, Seeded;
    SeedIsValid();
    FreshSeverities();
    var avg := Averages(DemoRows());
    forall m | m in SEED.metrics.values
      ensures Rank(SeverityOf(m, SEED.metrics, avg, DEFAULT_THRESHOLDS)) <= Rank(WATCH)
    {
      SeedKeys(m);
    }
    StatusBoundedBy(SEED.metrics, avg, DEFAULT_THRESHOLDS, Rank(WATCH));
    StatusIsMaximum(SEED.metrics, avg, DEFAULT_THRESHOLDS);
    assert "precision" in SEED.metrics.values by { SeedHasPrecision(); }
  }

  lemma SeedHasPrecision()
    ensures "precision" in SEED.metrics.values
  {
  }
}
