/**
 The champion baseline: its store, the merge of each promotion, and what a chain of promotions
 can and cannot hide from drift detection.
 */
module Champion {
  import opened Strings
  import opened Wrappers
  import opened Dict
  import opened Drift
  import opened Numbers

  datatype Baseline = Baseline(version: string, snapshotId: string, metrics: Dict<Value>, source: string)

  datatype Instruction = Instruction(step: nat, action: string)

  datatype Report = Report(
    status: Severity, signals: seq<Signal>, championVersion: string, remediation: seq<Instruction>)

  const SEED := Baseline("champion-v1", "snap-champion-seed",
    Dict(["precision", "recall", "hallucination_rate", "ragas_quality_score", "hitl_case_pass_rate", "hitl_agree_rate",
          "avg_agent_error_rate", "avg_agent_latency_ms", "uw_override_rate"],
         map["precision" := Num(0.91), "recall" := Num(0.94), "hallucination_rate" := Num(0.03),
             "ragas_quality_score" := Num(0.86), "hitl_case_pass_rate" := Num(0.88), "hitl_agree_rate" := Num(0.85),
             "avg_agent_error_rate" := Num(0.018), "avg_agent_latency_ms" := Num(650.0),
             "uw_override_rate" := Num(0.12)]),
    "seed")

  /** What a promotion keeps of the metrics: absent values are dropped, refused ones raise. */
  function Cleaned(metrics: Dict<Value>): Option<Dict<Value>> {
    if exists k :: k in metrics.values && metrics.values[k].Text? then None
    else
      var numbers := map k | k in metrics.values && metrics.values[k].Num? :: metrics.values[k];
      Some(Dict(Present(metrics.order, metrics.values), numbers))
  }

  function Present(order: seq<string>, values: map<string, Value>): (r: seq<string>)
    ensures forall k :: k in r <==> k in order && k in values && values[k].Num?
  {
    if order == [] then []
    else (if order[0] in values && values[order[0]].Num? then [order[0]] else []) + Present(order[1..], values)
  }

  function Promoted(base: Dict<Value>, metrics: Dict<Value>): Dict<Value>
    requires Cleaned(metrics).Some?
  {
    Merge(base, Cleaned(metrics).value)
  }

  class ChampionBaselineStore {
    var file: Option<Baseline>

    constructor ()
      ensures file == None
    {
      file := None;
    }

    /** What `load` returns; an absent file is seeded. */
    function Current(): Baseline
      reads this
    {
      if file.Some? then file.value else SEED
    }

    method Save(baseline: Baseline)
      modifies this
      ensures file == Some(baseline)
    {
      file := Some(baseline);
    }

    method Load() returns (b: Baseline)
      modifies this
      ensures b == old(Current()) && file == Some(b)
    {
      if file.None? { Save(SEED); }
      b := file.value;
    }

    method PromoteFromMetrics(metrics: Dict<Value>, version: string, snapshotId: string) returns (r: Option<Baseline>)
      modifies this
      ensures
        var old' := old(Current());
        match Cleaned(metrics)
        case None => r == None && file == Some(old')
        case Some(_) =>
          r == file == Some(Baseline(version, if snapshotId == "" then old'.snapshotId else snapshotId,
                                     Promoted(old'.metrics, metrics), "promoted"))
    {
      var current := Load();
      var cleaned := Cleaned(metrics);
      if cleaned.None? { return None; }
      var merged := Merge(current.metrics, cleaned.value);
      var snapshot := if snapshotId != "" then snapshotId else current.snapshotId;
      var baseline := Baseline(version, snapshot, merged, "promoted");
      Save(baseline);
      r := Some(baseline);
    }
  }

  /** `remediation_playbook`, without the explanations. */
  function Playbook(status: Severity): seq<Instruction> {
    [Instruction(1, "confirm"), Instruction(2, "classify_drift")]
    + (if status == ACTION || status == CRITICAL then [Instruction(3, "open_regression_experiment")] else [])
    + (if status == CRITICAL then [Instruction(4, "rollback_champion"), Instruction(5, "root_cause")]
       else [Instruction(3, "root_cause")])
    + [Instruction(if status == CRITICAL then 6 else 4, "fix_and_revalidate"),
       Instruction(if status == CRITICAL then 7 else 5, "raise_monitoring")]
  }

  ghost predicate NumberedInOrder(playbook: seq<Instruction>) {
    forall i :: 0 <= i < |playbook| ==> playbook[i].step == i + 1
  }

  /** The steps are numbered one after the other exactly when the status is not action. */
  lemma PlaybookNumberedIff(status: Severity)
    ensures NumberedInOrder(Playbook(status)) <==> status != ACTION
  {
    if status == ACTION { assert Playbook(status)[3].step == 3; }
  }

  /** The prescribed actions of each status, in order. */
  lemma PlaybookIs(status: Severity)
    ensures
      var actions := seq(|Playbook(status)|, i requires 0 <= i < |Playbook(status)| => Playbook(status)[i].action);
      match status
      case CRITICAL =>
        actions == ["confirm", "classify_drift", "open_regression_experiment", "rollback_champion", "root_cause",
                    "fix_and_revalidate", "raise_monitoring"]
      case ACTION =>
        actions == ["confirm", "classify_drift", "open_regression_experiment", "root_cause",
                    "fix_and_revalidate", "raise_monitoring"]
      case _ =>
        actions == ["confirm", "classify_drift", "root_cause", "fix_and_revalidate", "raise_monitoring"]
  {
  }

  /** A rollback is prescribed exactly on critical drift, a regression experiment from action upwards. */
  lemma PlaybookActions(status: Severity)
    ensures (exists i :: i in Playbook(status) && i.action == "rollback_champion") <==> status == CRITICAL
    ensures (exists i :: i in Playbook(status) && i.action == "open_regression_experiment") <==>
            Rank(status) >= Rank(ACTION)
  {
    var playbook := Playbook(status);
    if status == CRITICAL { assert playbook[3] in playbook; }
    if Rank(status) >= 2 { assert playbook[2] in playbook; }
    PlaybookNames();
  }

  lemma PlaybookNames()
    ensures "confirm"[0] == 'c' && "classify_drift"[0] == 'c' && "root_cause"[1] == 'o' && "root_cause"[2] == 'o'
    ensures "fix_and_revalidate"[0] == 'f' && "raise_monitoring"[1] == 'a'
    ensures "rollback_champion"[0] == 'r' && "rollback_champion"[2] == 'l' && "rollback_champion"[1] == 'o'
    ensures "open_regression_experiment"[0] == 'o'
  {
  }

  /** `detect_drift`: the given baseline or the store's, the given thresholds or the defaults. */
  method DetectDrift(store: ChampionBaselineStore, current: map<string, Value>, baseline: Option<Baseline>,
                     thresholds: map<string, Limits>) returns (report: Report)
    requires baseline.Some? ==> baseline.value.metrics.Valid()
    requires baseline.None? ==> store.Current().metrics.Valid()
    modifies store
    ensures
      var base := if baseline.Some? then baseline.value else old(store.Current());
      var limits := if thresholds == map[] then DEFAULT_THRESHOLDS else thresholds;
      var status := Status(base.metrics, current, limits);
      && report == Report(status, AllSignals(base.metrics, current, limits), base.version, Playbook(status))
      && store.file == (if baseline.Some? then old(store.file) else Some(base))
      && IsHighestReached(report.status, base.metrics.values, current, limits)
  {
    hide SEED, DEFAULT_THRESHOLDS, Playbook, IsHighestReached;
    var base: Baseline;
    if baseline.Some? { base := baseline.value; } else { base := store.Load(); }
    var limits := if thresholds == map[] then DEFAULT_THRESHOLDS else thresholds;
    var signals := CollectSignals(base.metrics, current, limits);
    var status := WorstOf(signals);
    StatusIff(base.metrics, current, limits);
    report := Report(status, signals, base.version, Playbook(status));
  }

  // ----- one promotion

  lemma PresentOne(k: string, values: map<string, Value>)
    ensures Present([k], values) == if k in values && values[k].Num? then [k] else []
  {
    assert [k][1..] == [] && Present([], values) == [];
  }

  lemma {:induction false} PresentConcat(a: seq<string>, b: seq<string>, values: map<string, Value>)
    ensures Present(a + b, values) == Present(a, values) + Present(b, values)
  {
    if a == [] {
      assert a + b == b;
    } else {
      assert (a + b)[1..] == a[1..] + b;
      PresentConcat(a[1..], b, values);
    }
  }

  lemma {:induction false} PresentDistinct(order: seq<string>, values: map<string, Value>)
    requires Distinct(order)
    ensures Distinct(Present(order, values))
  {
    if order != [] {
      PresentDistinct(order[1..], values);
      assert order[0] !in Present(order[1..], values);
    }
  }

  /** A promotion is refused exactly when some value is neither a number nor absent. */
  lemma RefusedIff(metrics: Dict<Value>)
    ensures Cleaned(metrics) == None <==>
            exists k :: k in metrics.values && metrics.values[k] != Null && !metrics.values[k].Num?
  {
  }

  /** A promotion keeps every key in its place and takes each promoted number; the rest is untouched. */
  lemma PromotionMerges(base: Dict<Value>, metrics: Dict<Value>)
    requires base.Valid() && metrics.Valid() && Cleaned(metrics).Some?
    ensures Promoted(base, metrics).Valid() && base.order <= Promoted(base, metrics).order
    ensures base.values.Keys <= Promoted(base, metrics).values.Keys
    ensures forall k :: k in metrics.values && metrics.values[k].Num? ==>
              k in Promoted(base, metrics).values && Promoted(base, metrics).values[k] == metrics.values[k]
    ensures forall k :: k in Promoted(base, metrics).values && !(k in metrics.values && metrics.values[k].Num?) ==>
              k in base.values && Promoted(base, metrics).values[k] == base.values[k]
  {
    PresentDistinct(metrics.order, metrics.values);
    assert Cleaned(metrics).value.order == Present(metrics.order, metrics.values);
    MergeValid(base, Cleaned(metrics).value);
  }

  /** Metrics compared with the champion they were just promoted into raise nothing. */
  lemma FreshChampionIsQuiet(base: Dict<Value>, metrics: Dict<Value>, thresholds: map<string, Limits>)
    requires base.Valid() && metrics.Valid() && Cleaned(metrics).Some?
    ensures AllSignals(Promoted(base, metrics), metrics.values, thresholds) == []
    ensures Status(Promoted(base, metrics), metrics.values, thresholds) == NONE
  {
    hide Promoted, LimitsFor, AllSignals, Status;
    var champion := Promoted(base, metrics);
    PromotionMerges(base, metrics);
    forall m | m in champion.values ensures Rank(SeverityOf(m, champion, metrics.values, thresholds)) <= 0 {
      if Comparable(m, champion, metrics.values) {
        assert champion.values[m] == metrics.values[m];
      }
    }
    StatusBoundedBy(champion, metrics.values, thresholds, 0);
    StatusIsMaximum(champion, metrics.values, thresholds);
  }

  // ----- chains of promotions

  /** The champion after promoting `steps` one by one. */
  function Chain(base: Dict<Value>, steps: seq<Dict<Value>>): Dict<Value>
    requires forall i :: 0 <= i < |steps| ==> Cleaned(steps[i]).Some?
  {
    if steps == [] then base else Promoted(Chain(base, steps[..|steps| - 1]), steps[|steps| - 1])
  }

  /** Each promotion raised no drift against the champion of its time. */
  ghost predicate QuietChain(base: Dict<Value>, steps: seq<Dict<Value>>, thresholds: map<string, Limits>)
    requires forall i :: 0 <= i < |steps| ==> Cleaned(steps[i]).Some?
  {
    steps != [] ==>
      var init, last := steps[..|steps| - 1], steps[|steps| - 1];
      QuietChain(base, init, thresholds) && Status(Chain(base, init), last.values, thresholds) == NONE
  }

  ghost predicate Promotable(steps: seq<Dict<Value>>) {
    forall i :: 0 <= i < |steps| ==> steps[i].Valid() && Cleaned(steps[i]).Some?
  }

  lemma {:induction false} ChainKeepsNumbers(base: Dict<Value>, steps: seq<Dict<Value>>, metric: string)
    requires base.Valid() && Promotable(steps)
    requires metric in base.values && base.values[metric].Num?
    ensures Chain(base, steps).Valid() && base.values.Keys <= Chain(base, steps).values.Keys
    ensures Chain(base, steps).values[metric].Num?
  {
    if steps != [] {
      var init := steps[..|steps| - 1];
      ChainKeepsNumbers(base, init, metric);
      PromotionMerges(Chain(base, init), steps[|steps| - 1]);
    }
  }

  /** One quiet promotion moves a metric by less than its smallest threshold. */
  lemma QuietStep(base: Dict<Value>, step: Dict<Value>, thresholds: map<string, Limits>, metric: string)
    requires base.Valid() && step.Valid() && Cleaned(step).Some?
    requires metric in base.values && base.values[metric].Num?
    requires Status(base, step.values, thresholds) == NONE
    requires Reach(LimitsFor(metric, thresholds)) > 0.0
    ensures
      var after := Promoted(base, step);
      && metric in after.values && after.values[metric].Num?
      && Worsening(metric, base.values[metric].value, after.values[metric].value) < Reach(LimitsFor(metric, thresholds))
  {
    hide Promoted, Status, LimitsFor, Reach, HIGHER_IS_WORSE;
    PromotionMerges(base, step);
    StatusIsMaximum(base, step.values, thresholds);
    if Comparable(metric, base, step.values) {
      JudgedIff(metric, base.values[metric].value, step.values[metric].value, LimitsFor(metric, thresholds));
      assert Rank(SeverityOf(metric, base, step.values, thresholds)) == 0;
    } else {
      assert Promoted(base, step).values[metric] == base.values[metric];
    }
  }

  lemma WorseningAdds(metric: string, a: real, b: real, c: real)
    ensures Worsening(metric, a, c) == Worsening(metric, a, b) + Worsening(metric, b, c)
  {
    hide HIGHER_IS_WORSE;
  }

  /** After n quiet promotions a metric has degraded by less than n times its smallest threshold. */
  lemma {:induction false} ChainBound(
    base: Dict<Value>, steps: seq<Dict<Value>>, thresholds: map<string, Limits>, metric: string)
    requires base.Valid() && Promotable(steps) && steps != []
    requires metric in base.values && base.values[metric].Num?
    requires QuietChain(base, steps, thresholds)
    requires Reach(LimitsFor(metric, thresholds)) > 0.0
    ensures Chain(base, steps).Valid() && metric in Chain(base, steps).values && Chain(base, steps).values[metric].Num?
    ensures Worsening(metric, base.values[metric].value, Chain(base, steps).values[metric].value)
            < Times(|steps|, Reach(LimitsFor(metric, thresholds)))
  {
    hide Promoted, Status, LimitsFor, Reach, Worsening, Cleaned, Times;
    var init, last := steps[..|steps| - 1], steps[|steps| - 1];
    ChainKeepsNumbers(base, init, metric);
    ChainKeepsNumbers(base, steps, metric);
    var before, after := Chain(base, init), Chain(base, steps);
    QuietStep(before, last, thresholds, metric);
    OneMore(|init|, Reach(LimitsFor(metric, thresholds)));
    WorseningAdds(metric, base.values[metric].value, before.values[metric].value, after.values[metric].value);
    if init != [] {
      ChainBound(base, init, thresholds, metric);
    } else {
      NoWorsening(metric, base.values[metric].value);
    }
  }

  lemma NoWorsening(metric: string, v: real)
    ensures Worsening(metric, v, v) == 0.0
  {
    hide HIGHER_IS_WORSE;
  }

  /** The bound with the shipped thresholds: n times the watch threshold. */
  lemma ChainBoundDefault(base: Dict<Value>, steps: seq<Dict<Value>>, metric: string)
    requires base.Valid() && Promotable(steps) && steps != []
    requires metric in base.values && base.values[metric].Num?
    requires QuietChain(base, steps, DEFAULT_THRESHOLDS)
    ensures metric in Chain(base, steps).values && Chain(base, steps).values[metric].Num?
    ensures Worsening(metric, base.values[metric].value, Chain(base, steps).values[metric].value)
            < Times(|steps|, LimitsFor(metric, DEFAULT_THRESHOLDS).watch)
  {
    hide DEFAULT_THRESHOLDS, LimitsFor, Worsening, Chain, QuietChain, Cleaned, Reach, Times;
    DefaultsAreOrdered(metric);
    ReachOfOrdered(LimitsFor(metric, DEFAULT_THRESHOLDS));
    ChainBound(base, steps, DEFAULT_THRESHOLDS, metric);
  }

  // ----- the bound is tight

  function Single(metric: string, v: real): Dict<Value> {
    Dict([metric], map[metric := Num(v)])
  }

  /** A value `d` worse than `v`. */
  function WorseBy(metric: string, v: real, d: real): real {
    if metric in HIGHER_IS_WORSE then v + d else v - d
  }

  /** n releases, each `d` worse than the one before. */
  function Ratchet(metric: string, v: real, d: real, n: nat): seq<Dict<Value>> {
    if n == 0 then [] else Ratchet(metric, v, d, n - 1) + [Single(metric, WorseBy(metric, v, Times(n, d)))]
  }

  lemma WorseByShift(metric: string, v: real, x: real, y: real)
    ensures Worsening(metric, WorseBy(metric, v, x), WorseBy(metric, v, y)) == y - x
    ensures WorseBy(metric, v, 0.0) == v
  {
    hide HIGHER_IS_WORSE;
  }

  /**
   Any number of releases, each worse by any step below the smallest threshold, are all promoted
   without a signal: the total degradation n * d is unbounded, and passes every threshold.
   */
  lemma {:induction false} RatchetGoesUnnoticed(
    metric: string, v: real, d: real, n: nat, thresholds: map<string, Limits>)
    requires 0.0 <= d < Reach(LimitsFor(metric, thresholds))
    ensures |Ratchet(metric, v, d, n)| == n && Promotable(Ratchet(metric, v, d, n))
    ensures QuietChain(Single(metric, v), Ratchet(metric, v, d, n), thresholds)
    ensures Chain(Single(metric, v), Ratchet(metric, v, d, n)) == Single(metric, WorseBy(metric, v, Times(n, d)))
    ensures Worsening(metric, v, WorseBy(metric, v, Times(n, d))) == Times(n, d)
  {
    hide WorseBy, Worsening, LimitsFor, Reach, Cleaned, Promoted, Status, Times, Single;
    WorseByShift(metric, v, 0.0, Times(n, d));
    OneMore(n, d);
    if n > 0 {
      RatchetGoesUnnoticed(metric, v, d, n - 1, thresholds);
      var x, y := Times(n - 1, d), Times(n, d);
      var last := Single(metric, WorseBy(metric, v, y));
      var init := Ratchet(metric, v, d, n - 1);
      assert Ratchet(metric, v, d, n)[..n - 1] == init;
      OneMore(n - 1, d);
      WorseByShift(metric, v, x, y);
      var champion := Single(metric, WorseBy(metric, v, x));
      RatchetStep(metric, WorseBy(metric, v, x), WorseBy(metric, v, y), champion, last, thresholds);
    }
  }

  lemma RatchetStep(
    metric: string, b: real, cur: real, base: Dict<Value>, last: Dict<Value>, thresholds: map<string, Limits>)
    requires base == Single(metric, b) && last == Single(metric, cur)
    requires Worsening(metric, b, cur) < Reach(LimitsFor(metric, thresholds))
    ensures last.Valid() && Cleaned(last).Some? && Promoted(base, last) == last
    ensures Status(base, last.values, thresholds) == NONE
  {
    hide Status, LimitsFor, Reach, Worsening;
    var cleaned := Cleaned(last).value;
    assert cleaned.values == last.values;
    assert last.order[1..] == [];
    assert Present(last.order, last.values) == [metric];
    assert NewKeys(cleaned.order, base.values.Keys) == [];
    assert base.order + [] == base.order;
    assert base.values + cleaned.values == last.values;
    JudgedIff(metric, b, cur, LimitsFor(metric, thresholds));
    StatusBoundedBy(base, last.values, thresholds, 0);
  }
}
