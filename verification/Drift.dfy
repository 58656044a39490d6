/** Drift of observed metrics against the champion baseline: classification, signals and status. */
module Drift {
  import opened Dict
  import opened Numbers
  import opened Rounding

  /** A metric value as `float()` meets it: absent, a number, or something it refuses. */
  datatype Value = Null | Num(value: real) | Text

  datatype Severity = NONE | WATCH | ACTION | CRITICAL

  datatype Kind = METRIC | BEHAVIORAL | DECISION

  datatype Limits = Limits(watch: real, action: real, critical: real)

  datatype Direction = BETTER | FLAT | WORSE

  datatype Signal = Signal(
    metric: string, kind: Kind, baseline: real, current: real, delta: real, severity: Severity, direction: Direction)

  const FALLBACK := Limits(0.03, 0.05, 0.08)

  const DEFAULT_THRESHOLDS: map<string, Limits> := map[
    "precision" := Limits(0.03, 0.05, 0.08),
    "recall" := Limits(0.03, 0.05, 0.08),
    "hallucination_rate" := Limits(0.02, 0.03, 0.05),
    "ragas_quality_score" := Limits(0.03, 0.05, 0.08),
    "hitl_case_pass_rate" := Limits(0.05, 0.08, 0.12),
    "hitl_agree_rate" := Limits(0.05, 0.08, 0.12),
    "avg_agent_error_rate" := Limits(0.01, 0.02, 0.04),
    "avg_agent_latency_ms" := Limits(150.0, 300.0, 600.0),
    "uw_override_rate" := Limits(0.05, 0.10, 0.15)]

  const HIGHER_IS_WORSE: set<string> :=
    {"hallucination_rate", "avg_agent_error_rate", "avg_agent_latency_ms", "uw_override_rate"}

  function Rank(s: Severity): nat {
    match s
    case NONE => 0
    case WATCH => 1
    case ACTION => 2
    case CRITICAL => 3
  }

  function LimitsFor(metric: string, thresholds: map<string, Limits>): Limits {
    if metric in thresholds then thresholds[metric] else FALLBACK
  }

  function SeverityFor(delta: real, t: Limits): Severity {
    if delta >= t.critical then CRITICAL
    else if delta >= t.action then ACTION
    else if delta >= t.watch then WATCH
    else NONE
  }

  function KindFor(metric: string): Kind {
    if metric == "avg_agent_error_rate" || metric == "avg_agent_latency_ms" then BEHAVIORAL
    else if metric == "uw_override_rate" then DECISION
    else METRIC
  }

  /** How much worse `cur` is than `b`; the sign depends on the metric. */
  function Worsening(metric: string, b: real, cur: real): real {
    if metric in HIGHER_IS_WORSE then cur - b else b - cur
  }

  /** The severity of one number against another: an improvement or no change is none. */
  function Judge(metric: string, b: real, cur: real, t: Limits): Severity {
    var worse := Worsening(metric, b, cur);
    if worse <= 0.0 then NONE else SeverityFor(worse, t)
  }

  predicate Comparable(metric: string, base: Dict<Value>, current: map<string, Value>) {
    metric in base.values && base.values[metric].Num? && metric in current && current[metric].Num?
  }

  /** The severity a metric gets: none when the two sides are not both numbers. */
  function SeverityOf(
    metric: string, base: Dict<Value>, current: map<string, Value>, thresholds: map<string, Limits>): Severity
  {
    if Comparable(metric, base, current) then
      Judge(metric, base.values[metric].value, current[metric].value, LimitsFor(metric, thresholds))
    else NONE
  }

  /** Only a metric that got worse is ever signalled. */
  function SignalFor(metric: string, b: real, cur: real, severity: Severity): Signal {
    Signal(metric, KindFor(metric), Round4(b), Round4(cur), Round4(cur - b), severity, WORSE)
  }

  /** The signals of the first n metrics, in baseline order. */
  function Signals(base: Dict<Value>, current: map<string, Value>, thresholds: map<string, Limits>, n: nat): seq<Signal>
    requires n <= |base.order|
  {
    if n == 0 then []
    else
      var metric := base.order[n - 1];
      var severity := SeverityOf(metric, base, current, thresholds);
      Signals(base, current, thresholds, n - 1)
      + if severity == NONE then []
        else [SignalFor(metric, base.values[metric].value, current[metric].value, severity)]
  }

  function Worst(signals: seq<Signal>): Severity {
    if signals == [] then NONE
    else
      var w := Worst(signals[..|signals| - 1]);
      if Rank(signals[|signals| - 1].severity) > Rank(w) then signals[|signals| - 1].severity else w
  }

  function AllSignals(base: Dict<Value>, current: map<string, Value>, thresholds: map<string, Limits>): seq<Signal> {
    Signals(base, current, thresholds, |base.order|)
  }

  function Status(base: Dict<Value>, current: map<string, Value>, thresholds: map<string, Limits>): Severity {
    Worst(AllSignals(base, current, thresholds))
  }

  /** The comparison loop of `detect_drift`. */
  method CollectSignals(base: Dict<Value>, current: map<string, Value>, thresholds: map<string, Limits>)
    returns (signals: seq<Signal>)
    requires base.Valid()
    ensures signals == AllSignals(base, current, thresholds)
  {
    hide HIGHER_IS_WORSE, KindFor, LimitsFor, SeverityFor, Round4, Signals;
    signals := [];
    SignalsOfNone(base, current, thresholds);
    for i := 0 to |base.order|
      invariant signals == Signals(base, current, thresholds, i)
    {
      var metric := base.order[i];
      SignalsSnoc(base, current, thresholds, i);
      if metric !in current || current[metric].Null? { continue; }
      if current[metric].Text? || !base.values[metric].Num? { continue; }
      var cur, b := current[metric].value, base.values[metric].value;
      var rawDelta := cur - b;
      var worse := if metric in HIGHER_IS_WORSE then rawDelta else b - cur;
      var severity, direction := NONE, BETTER;
      if worse == 0.0 {
        direction := FLAT;
      } else if worse > 0.0 {
        direction := WORSE;
        severity := SeverityFor(worse, LimitsFor(metric, thresholds));
      }
      if severity == NONE { continue; }
      signals := signals
        + [Signal(metric, KindFor(metric), Round4(b), Round4(cur), Round4(rawDelta), severity, direction)];
    }
  }

  lemma SignalsOfNone(base: Dict<Value>, current: map<string, Value>, thresholds: map<string, Limits>)
    ensures Signals(base, current, thresholds, 0) == []
  {
  }

  lemma SignalsSnoc(base: Dict<Value>, current: map<string, Value>, thresholds: map<string, Limits>, n: nat)
    requires n < |base.order|
    ensures
      var metric := base.order[n];
      var severity := SeverityOf(metric, base, current, thresholds);
      Signals(base, current, thresholds, n + 1) ==
      Signals(base, current, thresholds, n)
      + if severity == NONE then []
        else [SignalFor(metric, base.values[metric].value, current[metric].value, severity)]
  {
    hide SeverityOf, SignalFor;
  }

  /** The worst severity among the signals. */
  method WorstOf(signals: seq<Signal>) returns (status: Severity)
    ensures status == Worst(signals)
  {
    status := NONE;
    for i := 0 to |signals|
      invariant status == Worst(signals[..i])
    {
      assert signals[..i + 1][..i] == signals[..i];
      if Rank(signals[i].severity) > Rank(status) {
        status := signals[i].severity;
      }
    }
    assert signals[..|signals|] == signals;
  }

  // ----- what the signals say

  /** The smallest worsening that raises a signal. */
  function Reach(t: Limits): real {
    Min(t.watch, Min(t.action, t.critical))
  }

  ghost predicate Ordered(t: Limits) {
    0.0 < t.watch <= t.action <= t.critical
  }

  lemma ReachOfOrdered(t: Limits)
    requires Ordered(t)
    ensures Reach(t) == t.watch
  {
  }

  /** The shipped thresholds, and the fallback for unknown metrics, are positive and increasing. */
  lemma DefaultsAreOrdered(metric: string)
    ensures Ordered(LimitsFor(metric, DEFAULT_THRESHOLDS))
  {
  }

  /** A metric is signalled exactly when it got worse by at least the smallest threshold. */
  lemma JudgedIff(metric: string, b: real, cur: real, t: Limits)
    ensures Judge(metric, b, cur, t) != NONE <==>
            Worsening(metric, b, cur) > 0.0 && Worsening(metric, b, cur) >= Reach(t)
  {
    hide HIGHER_IS_WORSE;
  }

  /** Each severity by the thresholds it reaches and those it does not, whatever the thresholds. */
  lemma SeverityIff(metric: string, b: real, cur: real, t: Limits)
    ensures
      var w := if metric in HIGHER_IS_WORSE then cur - b else b - cur;
      && (Judge(metric, b, cur, t) == CRITICAL <==> w > 0.0 && w >= t.critical)
      && (Judge(metric, b, cur, t) == ACTION <==> w > 0.0 && t.action <= w < t.critical)
      && (Judge(metric, b, cur, t) == WATCH <==> w > 0.0 && t.watch <= w < t.critical && w < t.action)
      && (Judge(metric, b, cur, t) == NONE <==> w <= 0.0 || (w < t.watch && w < t.action && w < t.critical))
  {
    hide HIGHER_IS_WORSE;
  }

  /** Getting worse never lowers the severity, whatever the thresholds. */
  lemma JudgeMonotone(metric: string, b: real, cur: real, b': real, cur': real, t: Limits)
    requires Worsening(metric, b, cur) <= Worsening(metric, b', cur')
    ensures Rank(Judge(metric, b, cur, t)) <= Rank(Judge(metric, b', cur', t))
  {
    hide Worsening;
  }

  /** A metric among the first n is signalled exactly when its severity is not none. */
  lemma {:induction false} SignalledIff(
    base: Dict<Value>, current: map<string, Value>, thresholds: map<string, Limits>, n: nat, metric: string)
    requires n <= |base.order|
    ensures (exists s :: s in Signals(base, current, thresholds, n) && s.metric == metric)
            <==> metric in base.order[..n] && SeverityOf(metric, base, current, thresholds) != NONE
  {
    hide SeverityOf;
    if n > 0 {
      SignalledIff(base, current, thresholds, n - 1, metric);
      var before, after := Signals(base, current, thresholds, n - 1), Signals(base, current, thresholds, n);
      assert base.order[..n] == base.order[..n - 1] + [base.order[n - 1]];
      assert forall s :: s in before ==> s in after;
      if metric == base.order[n - 1] && SeverityOf(metric, base, current, thresholds) != NONE {
        assert after[|before|].metric == metric;
      }
    }
  }

  /** A signal of a metric, field by field. */
  ghost predicate Describes(s: Signal, b: real, cur: real) {
    && s.baseline == Round4(b) && s.current == Round4(cur) && s.delta == Round4(cur - b)
    && s.direction == WORSE
    && (s.kind == BEHAVIORAL <==> s.metric == "avg_agent_error_rate" || s.metric == "avg_agent_latency_ms")
    && (s.kind == DECISION <==> s.metric == "uw_override_rate")
  }

  lemma SignalDescribes(metric: string, b: real, cur: real, severity: Severity)
    ensures Describes(SignalFor(metric, b, cur, severity), b, cur)
    ensures SignalFor(metric, b, cur, severity).metric == metric
    ensures SignalFor(metric, b, cur, severity).severity == severity
  {
    hide Round4;
    assert "avg_agent_error_rate"[0] != "uw_override_rate"[0] && "avg_agent_latency_ms"[0] != "uw_override_rate"[0];
  }

  /** Each signal carries its metric's severity and four-digit figures. */
  lemma {:induction false} SignalsAreFaithful(
    base: Dict<Value>, current: map<string, Value>, thresholds: map<string, Limits>, n: nat)
    requires n <= |base.order|
    ensures forall s :: s in Signals(base, current, thresholds, n) ==>
              && Comparable(s.metric, base, current)
              && s.severity == SeverityOf(s.metric, base, current, thresholds) != NONE
              && Describes(s, base.values[s.metric].value, current[s.metric].value)
  {
    hide Judge, LimitsFor, SignalFor, Describes;
    if n > 0 {
      SignalsAreFaithful(base, current, thresholds, n - 1);
      var metric := base.order[n - 1];
      var severity := SeverityOf(metric, base, current, thresholds);
      if severity != NONE {
        SignalDescribes(metric, base.values[metric].value, current[metric].value, severity);
      }
    }
  }

  ghost predicate Precedes(a: string, b: string, order: seq<string>) {
    forall p, q :: 0 <= p < |order| && 0 <= q < |order| && order[p] == a && order[q] == b ==> p < q
  }

  /** Signals come in baseline order, no metric twice. */
  ghost predicate InOrder(signals: seq<Signal>, order: seq<string>) {
    forall i, j :: 0 <= i < j < |signals| ==> Precedes(signals[i].metric, signals[j].metric, order)
  }

  /** Every signal raised so far stands before the metric now looked at. */
  lemma EarlierSignalPrecedes(
    base: Dict<Value>, current: map<string, Value>, thresholds: map<string, Limits>, n: nat, i: nat)
    requires base.Valid() && n < |base.order| && i < |Signals(base, current, thresholds, n)|
    ensures Precedes(Signals(base, current, thresholds, n)[i].metric, base.order[n], base.order)
  {
    hide SeverityOf, Precedes, Signals;
    var s := Signals(base, current, thresholds, n)[i];
    assert s in Signals(base, current, thresholds, n);
    SignalledIff(base, current, thresholds, n, s.metric);
    PrecedesNth(base, s.metric, n);
  }

  lemma {:induction false} SignalsInBaselineOrder(
    base: Dict<Value>, current: map<string, Value>, thresholds: map<string, Limits>, n: nat)
    requires base.Valid() && n <= |base.order|
    ensures InOrder(Signals(base, current, thresholds, n), base.order)
  {
    if n > 0 {
      hide SeverityOf, Precedes, Signals, SignalFor, InOrder;
      SignalsInBaselineOrder(base, current, thresholds, n - 1);
      var before, after := Signals(base, current, thresholds, n - 1), Signals(base, current, thresholds, n);
      if SeverityOf(base.order[n - 1], base, current, thresholds) == NONE {
        SignalsSnoc(base, current, thresholds, n - 1);
        assert after == before;
      } else {
        SignalCarriesMetric(base, current, thresholds, n);
        forall i | 0 <= i < |before| ensures Precedes(before[i].metric, base.order[n - 1], base.order) {
          EarlierSignalPrecedes(base, current, thresholds, n - 1, i);
        }
        InOrderSnoc(before, after, base.order);
      }
    }
  }

  lemma InOrderSnoc(before: seq<Signal>, after: seq<Signal>, order: seq<string>)
    requires InOrder(before, order) && |after| == |before| + 1
    requires forall i :: 0 <= i < |before| ==> after[i] == before[i]
    requires forall i :: 0 <= i < |before| ==> Precedes(before[i].metric, after[|before|].metric, order)
    ensures InOrder(after, order)
  {
    hide Precedes;
    forall i, j | 0 <= i < j < |after| ensures Precedes(after[i].metric, after[j].metric, order) {
      assert after[i] == before[i];
      if j < |before| { assert after[j] == before[j]; }
    }
  }

  lemma SignalCarriesMetric(base: Dict<Value>, current: map<string, Value>, thresholds: map<string, Limits>, n: nat)
    requires 0 < n <= |base.order| && SeverityOf(base.order[n - 1], base, current, thresholds) != NONE
    ensures
      var before, after := Signals(base, current, thresholds, n - 1), Signals(base, current, thresholds, n);
      && |after| == |before| + 1 && after[|before|].metric == base.order[n - 1]
      && forall i :: 0 <= i < |before| ==> after[i] == before[i]
  {
    hide SeverityOf, KindFor, Round4;
  }

  lemma PrecedesNth(base: Dict<Value>, metric: string, n: nat)
    requires base.Valid() && n < |base.order| && metric in base.order[..n]
    ensures Precedes(metric, base.order[n], base.order)
  {
    var order := base.order;
    var k :| 0 <= k < n && order[k] == metric;
    forall p, q | 0 <= p < |order| && 0 <= q < |order| && order[p] == metric && order[q] == order[n]
      ensures p < q
    {
      assert p == k && q == n;
    }
  }

  // ----- the status

  /** The status is the severity of some signal, and no signal exceeds it. */
  lemma {:induction false} WorstIsMaximum(signals: seq<Signal>)
    ensures forall s :: s in signals ==> Rank(s.severity) <= Rank(Worst(signals))
    ensures Worst(signals) != NONE ==> exists s :: s in signals && s.severity == Worst(signals)
  {
    if signals != [] {
      var init, last := signals[..|signals| - 1], signals[|signals| - 1];
      WorstIsMaximum(init);
      assert forall s :: s in signals ==> s in init || s == last;
      assert forall s :: s in init ==> s in signals;
      assert last in signals;
    }
  }

  /** The status bounds the severity of every baseline metric and is reached by one of them. */
  lemma StatusIsMaximum(base: Dict<Value>, current: map<string, Value>, thresholds: map<string, Limits>)
    requires base.Valid()
    ensures forall m :: m in base.values ==>
              Rank(SeverityOf(m, base, current, thresholds)) <= Rank(Status(base, current, thresholds))
    ensures Status(base, current, thresholds) != NONE ==>
              exists m :: m in base.values
                && SeverityOf(m, base, current, thresholds) == Status(base, current, thresholds)
    ensures Status(base, current, thresholds) == NONE <==> AllSignals(base, current, thresholds) == []
  {
    hide SeverityOf, Worst, Signals;
    var n := |base.order|;
    var signals := AllSignals(base, current, thresholds);
    WorstIsMaximum(signals);
    SignalsAreFaithful(base, current, thresholds, n);
    assert base.order[..n] == base.order;
    forall m | m in base.values
      ensures Rank(SeverityOf(m, base, current, thresholds)) <= Rank(Status(base, current, thresholds))
    {
      SignalledIff(base, current, thresholds, n, m);
    }
    if signals == [] {
      assert Worst([]) == NONE by { WorstOfNothing(); }
    } else {
      assert signals[0] in signals;
    }
    if Status(base, current, thresholds) != NONE {
      var s :| s in signals && s.severity == Status(base, current, thresholds);
      assert Comparable(s.metric, base, current);
    }
  }

  lemma WorstOfNothing()
    ensures Worst([]) == NONE
  {
  }

  /** If every metric's severity is bounded, so is the status. */
  lemma StatusBoundedBy(base: Dict<Value>, current: map<string, Value>, thresholds: map<string, Limits>, bound: nat)
    requires base.Valid()
    requires forall m :: m in base.values ==> Rank(SeverityOf(m, base, current, thresholds)) <= bound
    ensures Rank(Status(base, current, thresholds)) <= bound
  {
    hide SeverityOf, Status;
    StatusIsMaximum(base, current, thresholds);
  }

  /** Making metrics worse never lowers the status. */
  lemma StatusMonotone(
    base: Dict<Value>, current: map<string, Value>, worse: map<string, Value>, thresholds: map<string, Limits>)
    requires base.Valid()
    requires forall m :: m in base.values && Comparable(m, base, current) ==>
               var b := base.values[m].value;
               Comparable(m, base, worse) && Worsening(m, b, current[m].value) <= Worsening(m, b, worse[m].value)
    ensures Rank(Status(base, current, thresholds)) <= Rank(Status(base, worse, thresholds))
  {
    hide Worsening, Status;
    StatusIsMaximum(base, worse, thresholds);
    forall m | m in base.values
      ensures Rank(SeverityOf(m, base, current, thresholds)) <= Rank(Status(base, worse, thresholds))
    {
      if Comparable(m, base, current) {
        var b, t := base.values[m].value, LimitsFor(m, thresholds);
        JudgeMonotone(m, b, current[m].value, b, worse[m].value, t);
      }
    }
    StatusBoundedBy(base, current, thresholds, Rank(Status(base, worse, thresholds)));
  }

  // ----- the status, read off the metrics

  /** A metric that is a number on both sides got worse by at least its threshold of a level. */
  ghost predicate WorsenedTo(
    m: string, base: map<string, Value>, current: map<string, Value>, thresholds: map<string, Limits>, level: Severity)
  {
    && m in base && base[m].Num? && m in current && current[m].Num?
    && var t := if m in thresholds then thresholds[m] else Limits(0.03, 0.05, 0.08);
       var w := if m in HIGHER_IS_WORSE then current[m].value - base[m].value else base[m].value - current[m].value;
       && w > 0.0
       && match level
          case NONE => true
          case WATCH => w >= t.watch
          case ACTION => w >= t.action
          case CRITICAL => w >= t.critical
  }

  ghost predicate Reached(
    base: map<string, Value>, current: map<string, Value>, thresholds: map<string, Limits>, level: Severity)
  {
    exists m :: WorsenedTo(m, base, current, thresholds, level)
  }

  lemma WorsenedIff(m: string, base: Dict<Value>, current: map<string, Value>, thresholds: map<string, Limits>)
    ensures
      var s := SeverityOf(m, base, current, thresholds);
      var critical := WorsenedTo(m, base.values, current, thresholds, CRITICAL);
      var action := WorsenedTo(m, base.values, current, thresholds, ACTION);
      var watch := WorsenedTo(m, base.values, current, thresholds, WATCH);
      && (s == CRITICAL <==> critical)
      && (Rank(s) >= Rank(ACTION) <==> critical || action)
      && (Rank(s) >= Rank(WATCH) <==> critical || action || watch)
  {
    hide HIGHER_IS_WORSE;
    if Comparable(m, base, current) {
      SeverityIff(m, base.values[m].value, current[m].value, LimitsFor(m, thresholds));
    }
  }

  /** The highest level some metric got worse by. */
  ghost predicate IsHighestReached(
    status: Severity, base: map<string, Value>, current: map<string, Value>, thresholds: map<string, Limits>)
  {
    var critical := Reached(base, current, thresholds, CRITICAL);
    var action := Reached(base, current, thresholds, ACTION);
    var watch := Reached(base, current, thresholds, WATCH);
    && (status == CRITICAL <==> critical)
    && (status == ACTION <==> !critical && action)
    && (status == WATCH <==> !critical && !action && watch)
    && (status == NONE <==> !critical && !action && !watch)
  }

  /** The status is that level, whatever the thresholds. */
  lemma StatusIff(base: Dict<Value>, current: map<string, Value>, thresholds: map<string, Limits>)
    requires base.Valid()
    ensures IsHighestReached(Status(base, current, thresholds), base.values, current, thresholds)
  {
    hide Status, SeverityOf, WorsenedTo;
    StatusIsMaximum(base, current, thresholds);
    forall m ensures
        var s := SeverityOf(m, base, current, thresholds);
        var critical := WorsenedTo(m, base.values, current, thresholds, CRITICAL);
        var action := WorsenedTo(m, base.values, current, thresholds, ACTION);
        var watch := WorsenedTo(m, base.values, current, thresholds, WATCH);
        && (critical || action || watch ==> m in base.values)
        && (s == CRITICAL <==> critical)
        && (Rank(s) >= Rank(ACTION) <==> critical || action)
        && (Rank(s) >= Rank(WATCH) <==> critical || action || watch)
    {
      WorsenedIff(m, base, current, thresholds);
      WorsenedIsKnown(m, base, current, thresholds);
    }
  }

  lemma WorsenedIsKnown(m: string, base: Dict<Value>, current: map<string, Value>, thresholds: map<string, Limits>)
    ensures forall level :: WorsenedTo(m, base.values, current, thresholds, level) ==> m in base.values
  {
  }
}
