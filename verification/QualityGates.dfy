/** The gate loop of `apply_quality_gates`, its counters and its verdict. */
module QualityGates {
  import opened Wrappers
  import opened Rounding

  datatype Severity = BLOCK | FLAG

  /** `direction` is "min" for a floor; anything else is a ceiling. */
  datatype Gate = Gate(metric: string, direction: string, threshold: real, severity: Severity, category: string)

  /** What the metrics map holds under a key; `float()` refuses what is not numeric. */
  datatype Raw = Missing | NotAvailable | Number(value: real) | NonNumeric(text: string)

  datatype Status = Passing | Failing | Flagging | Skipped

  datatype GateResult = GateResult(gate: Gate, status: Status, observed: Raw, flagged: bool)

  datatype Verdict = BLOCKED | FLAGGED | PASS | INCOMPLETE

  datatype Summary =
    Summary(verdict: Verdict, blocks: nat, flags: nat, passes: nat, skipped: nat, results: seq<GateResult>)

  const QUALITY_GATES: seq<Gate> := [
    Gate("precision", "min", 0.85, BLOCK, "field_extraction"),
    Gate("recall", "min", 0.90, BLOCK, "field_extraction"),
    Gate("hallucination_rate", "max", 0.05, BLOCK, "field_extraction"),
    Gate("ragas_quality_score", "min", 0.80, BLOCK, "rag"),
    Gate("faithfulness", "min", 0.80, FLAG, "rag"),
    Gate("answer_relevancy", "min", 0.75, FLAG, "rag"),
    Gate("context_precision", "min", 0.70, FLAG, "rag"),
    Gate("context_recall", "min", 0.70, FLAG, "rag"),
    Gate("hitl_agree_rate", "min", 0.80, FLAG, "hitl"),
    Gate("hitl_case_pass_rate", "min", 0.80, BLOCK, "hitl"),
    Gate("giskard_high_severity_issues", "max", 0.0, FLAG, "safety"),
    Gate("benchmark_ttft_p95_s", "max", 5.0, FLAG, "performance"),
    Gate("benchmark_output_speed_tokens_per_s", "min", 10.0, FLAG, "performance"),
    Gate("benchmark_cost_per_task_usd", "max", 0.50, FLAG, "price")]

  function Lookup(metrics: map<string, Raw>, metric: string): Raw {
    if metric in metrics then metrics[metric] else Missing
  }

  predicate IsFloor(gate: Gate) {
    gate.direction == "min"
  }

  predicate Meets(gate: Gate, observed: real) {
    if IsFloor(gate) then observed >= gate.threshold else observed <= gate.threshold
  }

  /** A supplied number on the wrong side of the gate. */
  predicate Violated(gate: Gate, metrics: map<string, Raw>) {
    Lookup(metrics, gate.metric).Number? && !Meets(gate, Lookup(metrics, gate.metric).value)
  }

  function StatusOf(gate: Gate, metrics: map<string, Raw>): Status {
    if !Lookup(metrics, gate.metric).Number? then Skipped
    else if !Violated(gate, metrics) then Passing
    else if gate.severity == BLOCK then Failing
    else Flagging
  }

  function ResultOf(gate: Gate, metrics: map<string, Raw>): GateResult {
    var status := StatusOf(gate, metrics);
    GateResult(gate, status, Observed(Lookup(metrics, gate.metric)), status == Failing || status == Flagging)
  }

  /** A number is reported with four digits, an unusable value as it came, an absent one as nothing. */
  function Observed(raw: Raw): Raw {
    match raw
    case Number(value) => Number(Round4(value))
    case NonNumeric(_) => raw
    case _ => Missing
  }

  /** How many gates end in a status. */
  function Count(gates: seq<Gate>, metrics: map<string, Raw>, status: Status): nat {
    if gates == [] then 0
    else
      Count(gates[..|gates| - 1], metrics, status)
      + if StatusOf(gates[|gates| - 1], metrics) == status then 1 else 0
  }

  function VerdictOf(gates: seq<Gate>, metrics: map<string, Raw>): Verdict {
    if Count(gates, metrics, Failing) > 0 then BLOCKED
    else if Count(gates, metrics, Flagging) > 0 then FLAGGED
    else if Count(gates, metrics, Passing) > 0 then PASS
    else INCOMPLETE
  }

  function ResultsOf(gates: seq<Gate>, metrics: map<string, Raw>): seq<GateResult> {
    seq(|gates|, i requires 0 <= i < |gates| => ResultOf(gates[i], metrics))
  }

  function SummaryOf(gates: seq<Gate>, metrics: map<string, Raw>): Summary {
    Summary(VerdictOf(gates, metrics), Count(gates, metrics, Failing), Count(gates, metrics, Flagging),
            Count(gates, metrics, Passing), Count(gates, metrics, Skipped), ResultsOf(gates, metrics))
  }

  /** A supplied number on the wrong side of the threshold, spelled out. */
  lemma ViolatedIff(gate: Gate, metrics: map<string, Raw>)
    ensures Violated(gate, metrics) <==>
            && gate.metric in metrics && metrics[gate.metric].Number?
            && if gate.direction == "min" then metrics[gate.metric].value < gate.threshold
               else metrics[gate.metric].value > gate.threshold
  {
  }

  /** The gates whose number is supplied, and among them those it violates. */
  function Supplied(gates: seq<Gate>, metrics: map<string, Raw>): set<int> {
    set i | 0 <= i < |gates| && gates[i].metric in metrics && metrics[gates[i].metric].Number?
  }

  function Violations(gates: seq<Gate>, metrics: map<string, Raw>, severity: Severity): set<int> {
    set i | 0 <= i < |gates| && gates[i].severity == severity && Violated(gates[i], metrics)
  }

  lemma {:induction false} CountIs(gates: seq<Gate>, metrics: map<string, Raw>, status: Status)
    ensures Count(gates, metrics, status) == |set i | 0 <= i < |gates| && StatusOf(gates[i], metrics) == status|
  {
    hide StatusOf;
    if gates != [] {
      var init, n := gates[..|gates| - 1], |gates| - 1;
      CountIs(init, metrics, status);
      assert (set i | 0 <= i < |gates| && StatusOf(gates[i], metrics) == status)
          == (set i | 0 <= i < |init| && StatusOf(init[i], metrics) == status)
             + if StatusOf(gates[n], metrics) == status then {n} else {};
    }
  }

  lemma {:induction false} SuppliedOrSkipped(gates: seq<Gate>, metrics: map<string, Raw>)
    ensures |Supplied(gates, metrics)| + Count(gates, metrics, Skipped) == |gates|
  {
    hide Meets;
    if gates != [] {
      var init, n := gates[..|gates| - 1], |gates| - 1;
      SuppliedOrSkipped(init, metrics);
      assert Supplied(gates, metrics) ==
             Supplied(init, metrics) + if StatusOf(gates[n], metrics) != Skipped then {n} else {};
    }
  }

  lemma ViolationsCount(gates: seq<Gate>, metrics: map<string, Raw>)
    ensures Count(gates, metrics, Failing) == |Violations(gates, metrics, BLOCK)|
    ensures Count(gates, metrics, Flagging) == |Violations(gates, metrics, FLAG)|
  {
    hide Count, Meets, Lookup;
    CountIs(gates, metrics, Failing);
    CountIs(gates, metrics, Flagging);
    assert (set i | 0 <= i < |gates| && StatusOf(gates[i], metrics) == Failing) == Violations(gates, metrics, BLOCK);
    assert (set i | 0 <= i < |gates| && StatusOf(gates[i], metrics) == Flagging) == Violations(gates, metrics, FLAG);
  }

  /** The four counters, over the gates: violated ones by severity, supplied ones, and all. */
  lemma CountersAre(gates: seq<Gate>, metrics: map<string, Raw>)
    ensures
      var s := SummaryOf(gates, metrics);
      && s.blocks == |Violations(gates, metrics, BLOCK)| && s.flags == |Violations(gates, metrics, FLAG)|
      && s.blocks + s.flags + s.passes == |Supplied(gates, metrics)|
      && s.blocks + s.flags + s.passes + s.skipped == |gates| == |s.results|
      && forall i :: 0 <= i < |gates| ==> s.results[i] == ResultOf(gates[i], metrics)
  {
    hide Count, ResultOf, Violations, Supplied, VerdictOf;
    CountersPartition(gates, metrics);
    ViolationsCount(gates, metrics);
    SuppliedOrSkipped(gates, metrics);
  }

  /** One gate's result, field by field. */
  lemma ResultIs(gate: Gate, metrics: map<string, Raw>)
    ensures
      var r := ResultOf(gate, metrics);
      var supplied := gate.metric in metrics && metrics[gate.metric].Number?;
      && r.gate == gate
      && (r.status == Skipped <==> !supplied)
      && (r.status == Passing <==> supplied && !Violated(gate, metrics))
      && (r.status == Failing <==> Violated(gate, metrics) && gate.severity == BLOCK)
      && (r.status == Flagging <==> Violated(gate, metrics) && gate.severity == FLAG)
      && (r.flagged <==> Violated(gate, metrics))
      && r.observed == (if supplied then Number(Round4(metrics[gate.metric].value))
                        else if gate.metric in metrics && metrics[gate.metric].NonNumeric? then metrics[gate.metric]
                        else Missing)
  {
    hide Meets, Round4;
  }

  method ApplyQualityGates(gates: seq<Gate>, metrics: map<string, Raw>) returns (r: Summary)
    ensures r == SummaryOf(gates, metrics)
  {
    hide Round4;
    var results: seq<GateResult> := [];
    var blocks, flags, passes, skipped := 0, 0, 0, 0;
    for i := 0 to |gates|
      invariant |results| == i && forall j :: 0 <= j < i ==> results[j] == ResultOf(gates[j], metrics)
      invariant blocks == Count(gates[..i], metrics, Failing) && flags == Count(gates[..i], metrics, Flagging)
      invariant passes == Count(gates[..i], metrics, Passing) && skipped == Count(gates[..i], metrics, Skipped)
    {
      assert gates[..i + 1][..i] == gates[..i];
      var gate := gates[i];
      var raw := Lookup(metrics, gate.metric);
      if raw.Missing? || raw.NotAvailable? {
        results := results + [GateResult(gate, Skipped, Missing, false)];
        skipped := skipped + 1;
        continue;
      }
      if raw.NonNumeric? {
        results := results + [GateResult(gate, Skipped, raw, false)];
        skipped := skipped + 1;
        continue;
      }
      var observed := raw.value;
      var ok := if gate.direction == "min" then observed >= gate.threshold else observed <= gate.threshold;
      var status: Status;
      if ok {
        status := Passing;
        passes := passes + 1;
      } else if gate.severity == BLOCK {
        status := Failing;
        blocks := blocks + 1;
      } else {
        status := Flagging;
        flags := flags + 1;
      }
      results := results
        + [GateResult(gate, status, Number(Round4(observed)), status == Failing || status == Flagging)];
    }
    assert gates[..|gates|] == gates;
    assert results == ResultsOf(gates, metrics);
    var verdict :=
      if blocks > 0 then BLOCKED else if flags > 0 then FLAGGED else if passes > 0 then PASS else INCOMPLETE;
    r := Summary(verdict, blocks, flags, passes, skipped, results);
  }

  /** The four counters partition the gates. */
  lemma {:induction false} CountersPartition(gates: seq<Gate>, metrics: map<string, Raw>)
    ensures Count(gates, metrics, Failing) + Count(gates, metrics, Flagging) + Count(gates, metrics, Passing)
            + Count(gates, metrics, Skipped) == |gates|
  {
    if gates != [] { CountersPartition(gates[..|gates| - 1], metrics); }
  }

  lemma {:induction false} CountedIff(gates: seq<Gate>, metrics: map<string, Raw>, status: Status)
    ensures Count(gates, metrics, status) > 0 <==> exists gate :: gate in gates && StatusOf(gate, metrics) == status
  {
    if gates != [] {
      var init, last := gates[..|gates| - 1], gates[|gates| - 1];
      CountedIff(init, metrics, status);
      assert forall gate :: gate in gates <==> gate in init || gate == last;
    }
  }

  /** What each verdict means, as statements about the gates. */
  lemma VerdictIff(gates: seq<Gate>, metrics: map<string, Raw>)
    ensures VerdictOf(gates, metrics) == BLOCKED <==>
            exists gate :: gate in gates && gate.severity == BLOCK && Violated(gate, metrics)
    ensures VerdictOf(gates, metrics) == FLAGGED <==>
            (exists gate :: gate in gates && Violated(gate, metrics))
            && forall gate :: gate in gates && Violated(gate, metrics) ==> gate.severity == FLAG
    ensures VerdictOf(gates, metrics) == PASS <==>
            (exists gate :: gate in gates && Lookup(metrics, gate.metric).Number?)
            && forall gate :: gate in gates ==> !Violated(gate, metrics)
    ensures VerdictOf(gates, metrics) == INCOMPLETE <==>
            forall gate :: gate in gates ==> !Lookup(metrics, gate.metric).Number?
  {
    hide Count, Meets, Lookup;
    CountedIff(gates, metrics, Failing);
    CountedIff(gates, metrics, Flagging);
    CountedIff(gates, metrics, Passing);
    assert forall gate :: StatusOf(gate, metrics) == Failing <==> gate.severity == BLOCK && Violated(gate, metrics);
    assert forall gate :: StatusOf(gate, metrics) == Flagging <==> gate.severity == FLAG && Violated(gate, metrics);
    assert forall gate ::
        StatusOf(gate, metrics) == Passing <==> Lookup(metrics, gate.metric).Number? && !Violated(gate, metrics);
  }

  function Order(v: Verdict): nat {
    match v
    case BLOCKED => 0
    case FLAGGED => 1
    case PASS => 2
    case INCOMPLETE => 3
  }

  /** The same metrics are supplied, each moved in the good direction of every gate on it. */
  ghost predicate NoWorse(gates: seq<Gate>, metrics: map<string, Raw>, better: map<string, Raw>) {
    forall gate :: gate in gates ==>
      var before, after := Lookup(metrics, gate.metric), Lookup(better, gate.metric);
      && (before.Number? <==> after.Number?)
      && (before.Number? ==> if IsFloor(gate) then before.value <= after.value else before.value >= after.value)
  }

  /** Better metrics never lower the verdict. */
  lemma VerdictMonotone(gates: seq<Gate>, metrics: map<string, Raw>, better: map<string, Raw>)
    requires NoWorse(gates, metrics, better)
    ensures Order(VerdictOf(gates, metrics)) <= Order(VerdictOf(gates, better))
    ensures VerdictOf(gates, metrics) == INCOMPLETE <==> VerdictOf(gates, better) == INCOMPLETE
  {
    hide VerdictOf, Lookup, IsFloor;
    VerdictIff(gates, metrics);
    VerdictIff(gates, better);
    assert forall gate :: gate in gates && Violated(gate, better) ==> Violated(gate, metrics);
  }
}
