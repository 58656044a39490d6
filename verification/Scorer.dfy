/** Case scoring, its averages, and the verdict the scorer takes from them. */
module Scorer {
  import opened Numbers
  import opened Wrappers
  import opened Rounding
  import opened QualityGates

  datatype Kind = NUMBER | BOOL | TEXT | OTHER

  /**
   A field value as the scorer observes it: its type, its text trimmed and in lower case, and its
   number if it converts to one.  Values of other types compare by identity.
   */
  datatype Field = Absent | Present(kind: Kind, text: string, number: Option<real>, identity: int)

  /** A number or a Boolean always converts to a number. */
  ghost predicate WellTyped(f: Field) {
    f.Present? && (f.kind == NUMBER || f.kind == BOOL) ==> f.number.Some?
  }

  /** A Boolean is an instance of `int` and takes the numeric branch; `None` stands for a raised error. */
  function ComputePrecision(actual: Field, expected: Field): Option<real>
    requires WellTyped(expected)
  {
    if expected.Absent? then Some(1.0)
    else if actual.Absent? then Some(0.0)
    else if expected.kind == NUMBER || expected.kind == BOOL then
      if expected.number.value == 0.0 then Some(1.0)
      else
        var a :- actual.number;
        Some(Max(0.0, 1.0 - Abs(a - expected.number.value) / expected.number.value))
    else if expected.kind == TEXT then Some(if actual.text == expected.text then 1.0 else 0.0)
    else Some(if actual == expected then 1.0 else 0.0)
  }

  function ComputeRecall(found: nat, expected: nat): real {
    if expected == 0 then 1.0 else Min(1.0, found as real / expected as real)
  }

  /** One case: the actual and the expected value of each scored field, in `FIELD_KEYS` order. */
  datatype Pair = Pair(actual: Field, expected: Field)

  ghost predicate TypedCase(fields: seq<Pair>) {
    forall p :: p in fields ==> WellTyped(p.expected)
  }

  /** What running a golden case gives: its field values, or an exception. */
  datatype CaseRun = Raised | Ran(fields: seq<Pair>)

  ghost predicate TypedCases(cases: seq<CaseRun>) {
    forall c :: c in cases && c.Ran? ==> TypedCase(c.fields)
  }

  datatype Score = Score(precision: real, recall: real, hallucination: real)

  /** Precision of every field, or `None` when one of them raises. */
  function FieldScores(fields: seq<Pair>): Option<seq<real>>
    requires TypedCase(fields)
  {
    if fields == [] then Some([])
    else
      var init :- FieldScores(fields[..|fields| - 1]);
      var last :- ComputePrecision(fields[|fields| - 1].actual, fields[|fields| - 1].expected);
      Some(init + [last])
  }

  /** How many fields score at least one half, whether or not a value was expected for them. */
  function Found(scores: seq<real>): nat {
    if scores == [] then 0 else Found(scores[..|scores| - 1]) + if scores[|scores| - 1] >= 0.5 then 1 else 0
  }

  function Expected(fields: seq<Pair>): nat {
    if fields == [] then 0
    else Expected(fields[..|fields| - 1]) + if fields[|fields| - 1].expected.Present? then 1 else 0
  }

  function RecallOf(fields: seq<Pair>, scores: seq<real>): real {
    ComputeRecall(Found(scores), Expected(fields))
  }

  function ScoreOf(fields: seq<Pair>): Option<Score>
    requires TypedCase(fields)
  {
    var scores :- FieldScores(fields);
    var recall := RecallOf(fields, scores);
    Some(Score(Round4(Sum(scores) / Max(|scores| as real, 1.0)), Round4(recall), Round4(1.0 - recall)))
  }

  function Rounded(scores: seq<real>): seq<real> {
    seq(|scores|, i requires 0 <= i < |scores| => Round4(scores[i]))
  }

  /** The metrics of a case, and the score of each field with four digits. */
  datatype CaseScore = CaseScore(score: Score, fields: seq<real>)

  /** The loop over the fields of one case. */
  method ScoreCase(fields: seq<Pair>) returns (r: Option<CaseScore>)
    requires TypedCase(fields)
    ensures r.Some? <==> FieldScores(fields).Some?
    ensures r.Some? ==> r.value == CaseScore(ScoreOf(fields).value, Rounded(FieldScores(fields).value))
  {
    hide Round4, ComputePrecision, WellTyped;
    var scores: seq<real> := [];
    for i := 0 to |fields|
      invariant FieldScores(fields[..i]) == Some(scores)
    {
      assert fields[..i + 1][..i] == fields[..i];
      var v := ComputePrecision(fields[i].actual, fields[i].expected);
      if v.None? {
        FailedPrefix(fields, i + 1);
        return None;
      }
      scores := scores + [v.value];
    }
    assert fields[..|fields|] == fields;
    var recall := ComputeRecall(Found(scores), Expected(fields));
    var score := Score(Round4(Sum(scores) / Max(|scores| as real, 1.0)), Round4(recall), Round4(1.0 - recall));
    r := Some(CaseScore(score, Rounded(scores)));
  }

  /** The score of one field: exact for numbers in proportion to the expected one, all or nothing for the rest. */
  lemma FieldScoreIs(actual: Field, expected: Field)
    requires WellTyped(expected)
    ensures
      var score := ComputePrecision(actual, expected);
      var numeric := expected.Present? && (expected.kind == NUMBER || expected.kind == BOOL);
      && (expected.Absent? ==> score == Some(1.0))
      && (expected.Present? && actual.Absent? ==> score == Some(0.0))
      && (expected.Present? && actual.Present? && expected.kind == TEXT ==>
            score == Some(if actual.text == expected.text then 1.0 else 0.0))
      && (expected.Present? && actual.Present? && expected.kind == OTHER ==>
            score == Some(if actual == expected then 1.0 else 0.0))
      && (numeric && actual.Present? && expected.number.value == 0.0 ==> score == Some(1.0))
      && (score.None? <==> numeric && actual.Present? && expected.number.value != 0.0 && actual.number.None?)
  {
  }

  /**
   Against a number other than zero: the distance is taken off in units of the expected number, down to
   zero, or added on when that is negative.
   */
  lemma NumberScoreIs(actual: Field, expected: Field)
    requires WellTyped(expected) && expected.Present? && (expected.kind == NUMBER || expected.kind == BOOL)
    requires actual.Present? && actual.number.Some? && expected.number.value != 0.0
    ensures
      var e, a := expected.number.value, actual.number.value;
      var distance := if a < e then e - a else a - e;
      && ComputePrecision(actual, expected).Some?
      && ComputePrecision(actual, expected).value * e ==
         (if e < 0.0 || distance <= e then e - distance else 0.0)
  {
    var e, a := expected.number.value, actual.number.value;
    hide WellTyped;
    ClippedShare(if a < e then e - a else a - e, e);
  }

  lemma ClippedShare(distance: real, e: real)
    requires e != 0.0 && distance >= 0.0
    ensures Max(0.0, 1.0 - distance / e) * e == if e < 0.0 || distance <= e then e - distance else 0.0
  {
    QuotientTimes(distance, e);
    if e < 0.0 {
      QuotientSign(distance, e);
      assert (1.0 - distance / e) * e == e - distance / e * e;
    } else if distance <= e {
      assert distance / e <= 1.0;
      assert (1.0 - distance / e) * e == e - distance / e * e;
    } else {
      assert distance / e > 1.0;
    }
  }

  /** The scores of a case are those of its fields, in order; one field that raises makes the case raise. */
  lemma {:induction false} FieldScoresAt(fields: seq<Pair>)
    requires TypedCase(fields)
    ensures FieldScores(fields).Some? <==>
            forall i :: 0 <= i < |fields| ==> ComputePrecision(fields[i].actual, fields[i].expected).Some?
    ensures FieldScores(fields).Some? ==>
              && |FieldScores(fields).value| == |fields|
              && forall i :: 0 <= i < |fields| ==>
                   Some(FieldScores(fields).value[i]) == ComputePrecision(fields[i].actual, fields[i].expected)
  {
    hide ComputePrecision, WellTyped;
    if fields != [] {
      var init := fields[..|fields| - 1];
      assert TypedCase(init);
      FieldScoresAt(init);
      assert forall i :: 0 <= i < |init| ==> init[i] == fields[i];
    }
  }

  lemma {:induction false} FoundCounts(scores: seq<real>)
    ensures Found(scores) == |set i | 0 <= i < |scores| && scores[i] >= 0.5|
  {
    if scores != [] {
      var init, n := scores[..|scores| - 1], |scores| - 1;
      FoundCounts(init);
      assert (set i | 0 <= i < |scores| && scores[i] >= 0.5)
          == (set i | 0 <= i < |init| && init[i] >= 0.5) + if scores[n] >= 0.5 then {n} else {};
    }
  }

  lemma {:induction false} ExpectedCounts(fields: seq<Pair>)
    ensures Expected(fields) == |set i | 0 <= i < |fields| && fields[i].expected.Present?|
  {
    if fields != [] {
      var init, n := fields[..|fields| - 1], |fields| - 1;
      ExpectedCounts(init);
      assert (set i | 0 <= i < |fields| && fields[i].expected.Present?)
          == (set i | 0 <= i < |init| && init[i].expected.Present?) + if fields[n].expected.Present? then {n} else {};
    }
  }

  /** Recall times the number of expected fields is the number found, at most the number expected. */
  lemma RecallIs(found: nat, expected: nat)
    ensures expected == 0 ==> ComputeRecall(found, expected) == 1.0
    ensures expected > 0 ==>
              ComputeRecall(found, expected) * expected as real ==
              (if found <= expected then found else expected) as real
  {
    if expected > 0 {
      QuotientTimes(found as real, expected as real);
      QuotientAtLeastOne(found, expected);
    }
  }

  /** The metrics of a case over its field scores, each to four digits. */
  lemma CaseMetricsAre(fields: seq<Pair>)
    requires TypedCase(fields) && FieldScores(fields).Some? && fields != []
    ensures
      var scores := FieldScores(fields).value;
      var found := |set i | 0 <= i < |scores| && scores[i] >= 0.5|;
      var expected := |set i | 0 <= i < |fields| && fields[i].expected.Present?|;
      && |scores| == |fields|
      && ScoreOf(fields) == Some(Score(Round4(Sum(scores) / |fields| as real), Round4(ComputeRecall(found, expected)),
                                       Round4(1.0 - ComputeRecall(found, expected))))
  {
    hide ComputeRecall, Sum, Round4, FieldScores, TypedCase;
    FieldScoresAt(fields);
    FoundCounts(FieldScores(fields).value);
    ExpectedCounts(fields);
  }

  lemma {:induction false} FailedPrefix(fields: seq<Pair>, k: nat)
    requires k <= |fields| && TypedCase(fields)
    requires FieldScores(fields[..k]).None?
    ensures FieldScores(fields).None?
  {
    hide ComputePrecision, WellTyped;
    if k == |fields| {
      assert fields[..k] == fields;
    } else {
      assert fields[..|fields| - 1][..k] == fields[..k];
      FailedPrefix(fields[..|fields| - 1], k);
    }
  }

  // ----- precision is not always a rate

  /** A field scores above one exactly when a negative number is expected and another number is found. */
  lemma PrecisionAboveOneIff(actual: Field, expected: Field)
    requires WellTyped(expected) && ComputePrecision(actual, expected).Some?
    ensures ComputePrecision(actual, expected).value >= 0.0
    ensures ComputePrecision(actual, expected).value > 1.0 <==>
            && expected.Present? && actual.Present?
            && (expected.kind == NUMBER || expected.kind == BOOL)
            && expected.number.value < 0.0 && actual.number != expected.number
  {
    if expected.Present? && actual.Present? && (expected.kind == NUMBER || expected.kind == BOOL)
       && expected.number.value != 0.0
    {
      QuotientSign(Abs(actual.number.value - expected.number.value), expected.number.value);
    }
  }

  lemma QuotientSign(a: real, e: real)
    requires a >= 0.0 && e != 0.0
    ensures a / e < 0.0 <==> a > 0.0 && e < 0.0
  {
  }

  /** Expecting -1 and finding 1 scores three. */
  lemma PrecisionOfThree()
    ensures
      var number := (n: real) => Present(NUMBER, "", Some(n), 0);
      ComputePrecision(number(1.0), number(-1.0)) == Some(3.0)
  {
    assert 2.0 / -1.0 == -2.0;
  }

  // ----- recall counts fields nobody asked for

  /** Expected fields whose score is below one half. */
  function Missed(fields: seq<Pair>, scores: seq<real>): nat
    requires |fields| == |scores|
  {
    if fields == [] then 0
    else
      Missed(fields[..|fields| - 1], scores[..|scores| - 1])
      + if fields[|fields| - 1].expected.Present? && scores[|scores| - 1] < 0.5 then 1 else 0
  }

  lemma {:induction false} MissedCounts(fields: seq<Pair>, scores: seq<real>)
    requires |fields| == |scores|
    ensures Missed(fields, scores) == |set i | 0 <= i < |fields| && fields[i].expected.Present? && scores[i] < 0.5|
  {
    if fields != [] {
      var n := |fields| - 1;
      var init, first := fields[..n], scores[..n];
      MissedCounts(init, first);
      assert (set i | 0 <= i < |fields| && fields[i].expected.Present? && scores[i] < 0.5)
          == (set i | 0 <= i < |init| && init[i].expected.Present? && first[i] < 0.5)
             + if fields[n].expected.Present? && scores[n] < 0.5 then {n} else {};
    }
  }

  /** A field nobody expects scores one. */
  ghost predicate UnaskedScoreOne(fields: seq<Pair>, scores: seq<real>) {
    |scores| == |fields| && forall i :: 0 <= i < |fields| && fields[i].expected.Absent? ==> scores[i] == 1.0
  }

  lemma {:induction false} FieldScoresUnasked(fields: seq<Pair>)
    requires TypedCase(fields) && FieldScores(fields).Some?
    ensures UnaskedScoreOne(fields, FieldScores(fields).value)
  {
    if fields != [] {
      var init, last := fields[..|fields| - 1], fields[|fields| - 1];
      assert TypedCase(init);
      assert last.expected.Absent? ==> ComputePrecision(last.actual, last.expected) == Some(1.0);
      hide ComputePrecision, WellTyped;
      FieldScoresUnasked(init);
    }
  }

  /** Every field is missed or found. */
  lemma {:induction false} FoundOrMissed(fields: seq<Pair>, scores: seq<real>)
    requires UnaskedScoreOne(fields, scores)
    ensures Found(scores) + Missed(fields, scores) == |fields| && Expected(fields) <= |fields|
  {
    if fields != [] { FoundOrMissed(fields[..|fields| - 1], scores[..|scores| - 1]); }
  }

  /**
   Recall is perfect exactly when the misses are no more than the fields without an expectation:
   each absent expectation hides one miss.
   */
  lemma PerfectRecallIff(fields: seq<Pair>, scores: seq<real>)
    requires TypedCase(fields)
    requires FieldScores(fields) == Some(scores)
    ensures |scores| == |fields|
    ensures RecallOf(fields, scores) == 1.0 <==>
            Expected(fields) == 0 || Missed(fields, scores) <= |fields| - Expected(fields)
  {
    hide TypedCase, FieldScores;
    FieldScoresUnasked(fields);
    FoundOrMissed(fields, scores);
    var f, e := Found(scores), Expected(fields);
    if e > 0 { QuotientAtLeastOne(f, e); }
  }

  lemma QuotientAtLeastOne(f: nat, e: nat)
    requires e > 0
    ensures f as real / e as real >= 1.0 <==> f >= e
  {
  }

  lemma FieldScoresSnoc(fields: seq<Pair>, last: Pair)
    requires TypedCase(fields) && TypedCase(fields + [last])
    requires FieldScores(fields).Some? && ComputePrecision(last.actual, last.expected).Some?
    ensures FieldScores(fields + [last]) ==
            Some(FieldScores(fields).value + [ComputePrecision(last.actual, last.expected).value])
    ensures Expected(fields + [last]) == Expected(fields) + if last.expected.Present? then 1 else 0
  {
    hide ComputePrecision, TypedCase;
    assert (fields + [last])[..|fields|] == fields;
  }

  lemma CountsSnoc(fields: seq<Pair>, scores: seq<real>, last: Pair, v: real)
    requires |fields| == |scores|
    ensures Found(scores + [v]) == Found(scores) + if v >= 0.5 then 1 else 0
    ensures Missed(fields + [last], scores + [v]) ==
            Missed(fields, scores) + if last.expected.Present? && v < 0.5 then 1 else 0
  {
    assert (fields + [last])[..|fields|] == fields && (scores + [v])[..|scores|] == scores;
  }

  lemma AllFoundIsPerfect()
    ensures ComputeRecall(1, 1) == 1.0
  {
  }

  lemma MissedScores(missed: Pair)
    requires missed.actual.Present? && missed.expected.Present? && missed.expected.kind == TEXT
    requires missed.actual.text != missed.expected.text
    ensures ComputePrecision(missed.actual, missed.expected) == Some(0.0)
    ensures ComputePrecision(Absent, Absent) == Some(1.0)
    ensures TypedCase([]) && TypedCase([missed]) && TypedCase([missed, Pair(Absent, Absent)])
    ensures FieldScores([]) == Some([]) && Expected([]) == 0 && Found([]) == 0 && Missed([], []) == 0
  {
  }

  /** One expected text, missed, and one absent expectation: the recall is perfect all the same. */
  lemma MissedYetPerfect(missed: Pair)
    requires missed.actual.Present? && missed.expected.Present? && missed.expected.kind == TEXT
    requires missed.actual.text != missed.expected.text
    ensures
      var fields := [missed, Pair(Absent, Absent)];
      && TypedCase(fields) && FieldScores(fields) == Some([0.0, 1.0])
      && Expected(fields) == Missed(fields, [0.0, 1.0]) == 1 && RecallOf(fields, [0.0, 1.0]) == 1.0
  {
    hide TypedCase, ComputePrecision, FieldScores, Expected, Found, Missed, WellTyped, ComputeRecall;
    var absent := Pair(Absent, Absent);
    MissedScores(missed);
    AllFoundIsPerfect();
    assert [] + [missed] == [missed] && [missed] + [absent] == [missed, absent];
    assert [] + [0.0] == [0.0] && [0.0] + [1.0] == [0.0, 1.0];
    FieldScoresSnoc([], missed);
    FieldScoresSnoc([missed], absent);
    CountsSnoc([], [], missed, 0.0);
    CountsSnoc([missed], [0.0], absent, 1.0);
  }

  /** Recall is a rate. */
  lemma RecallInUnit(found: nat, expected: nat)
    ensures 0.0 <= ComputeRecall(found, expected) <= 1.0
  {
  }

  // ----- averages over scored cases

  /** A case that raised scores zero and hallucinates fully. */
  const ERROR_SCORE := Score(0.0, 0.0, 1.0)

  /** The row one case leaves, whether it was run, raised, or could not be scored. */
  function RowOf(c: CaseRun): Score
    requires c.Ran? ==> TypedCase(c.fields)
  {
    if c.Raised? || ScoreOf(c.fields).None? then ERROR_SCORE else ScoreOf(c.fields).value
  }

  function Scored(cases: seq<CaseRun>): seq<Score>
    requires TypedCases(cases)
  {
    if cases == [] then []
    else
      assert cases[|cases| - 1] in cases;
      Scored(cases[..|cases| - 1]) + [RowOf(cases[|cases| - 1])]
  }

  function SumOf(scored: seq<Score>): Score {
    if scored == [] then Score(0.0, 0.0, 0.0)
    else
      var init, last := SumOf(scored[..|scored| - 1]), scored[|scored| - 1];
      Score(init.precision + last.precision, init.recall + last.recall, init.hallucination + last.hallucination)
  }

  /** The mean of the three metrics; no case at all averages to zero. */
  function Average(scored: seq<Score>): Score {
    var n := Max(|scored| as real, 1.0);
    var s := SumOf(scored);
    Score(s.precision / n, s.recall / n, s.hallucination / n)
  }

  function GateMetrics(average: Score): map<string, Raw> {
    map["precision" := Number(average.precision),
        "recall" := Number(average.recall),
        "hallucination_rate" := Number(average.hallucination)]
  }

  /** The head of the written report: the averages with four digits, and what the gates say of the exact ones. */
  datatype Report = Report(totalCases: nat, averages: Score, gates: Summary)

  method ScoreAll(cases: seq<CaseRun>) returns (scored: seq<Score>, report: Report)
    requires TypedCases(cases)
    ensures scored == Scored(cases)
    ensures
      var average := Average(scored);
      report == Report(|cases|,
                       Score(Round4(average.precision), Round4(average.recall), Round4(average.hallucination)),
                       SummaryOf(QUALITY_GATES, GateMetrics(average)))
  {
    hide ScoreOf, TypedCase, QUALITY_GATES, GateMetrics, SummaryOf, Rounded, Round4, SumOf;
    scored := [];
    for i := 0 to |cases|
      invariant scored == Scored(cases[..i]) && |scored| == i
    {
      assert cases[..i + 1][..i] == cases[..i];
      assert cases[i] in cases;
      if cases[i].Raised? {
        scored := scored + [ERROR_SCORE];
        continue;
      }
      var s := ScoreCase(cases[i].fields);
      CaseRow(cases[i].fields);
      scored := scored + [if s.Some? then s.value.score else ERROR_SCORE];
    }
    assert cases[..|cases|] == cases;
    var n := Max(|scored| as real, 1.0);
    var total := SumOf(scored);
    var average := Score(total.precision / n, total.recall / n, total.hallucination / n);
    var gates := ApplyQualityGates(QUALITY_GATES, GateMetrics(average));
    var averages := Score(Round4(average.precision), Round4(average.recall), Round4(average.hallucination));
    report := Report(|scored|, averages, gates);
  }

  lemma CaseRow(fields: seq<Pair>)
    requires TypedCase(fields)
    ensures ScoreOf(fields).Some? <==> FieldScores(fields).Some?
  {
  }

  /** One row's rate and complement, four digits each, add up to one; so does an error row. */
  lemma RowAddsUpToOne(c: CaseRun)
    requires c.Ran? ==> TypedCase(c.fields)
    ensures RowOf(c).recall + RowOf(c).hallucination == 1.0
  {
    hide Round4, FieldScores, RecallOf, TypedCase;
    if c.Ran? && FieldScores(c.fields).Some? {
      Round4Complement(RecallOf(c.fields, FieldScores(c.fields).value));
    }
  }

  /** Recall and hallucination of one row are rates. */
  lemma RowIsRate(c: CaseRun)
    requires c.Ran? ==> TypedCase(c.fields)
    ensures 0.0 <= RowOf(c).recall <= 1.0 && 0.0 <= RowOf(c).hallucination <= 1.0
  {
    hide Round4, FieldScores, ComputeRecall, TypedCase;
    if c.Ran? && FieldScores(c.fields).Some? {
      var scores := FieldScores(c.fields).value;
      RecallInUnit(Found(scores), Expected(c.fields));
      Round4Unit(RecallOf(c.fields, scores));
      Round4Unit(1.0 - RecallOf(c.fields, scores));
    }
  }

  lemma {:induction false} SumsOfRates(cases: seq<CaseRun>)
    requires TypedCases(cases)
    ensures |Scored(cases)| == |cases|
    ensures
      var s := SumOf(Scored(cases));
      0.0 <= s.recall <= |cases| as real && 0.0 <= s.hallucination <= |cases| as real
  {
    hide TypedCase, RowOf;
    if cases != [] {
      var init, last := cases[..|cases| - 1], cases[|cases| - 1];
      SumsOfRates(init);
      var scored := Scored(cases);
      assert scored[..|scored| - 1] == Scored(init);
      assert last in cases;
      RowIsRate(last);
    }
  }

  /** The average recall and the average hallucination of any cases are rates. */
  lemma AveragesAreRates(cases: seq<CaseRun>)
    requires TypedCases(cases)
    ensures 0.0 <= Average(Scored(cases)).recall <= 1.0
    ensures 0.0 <= Average(Scored(cases)).hallucination <= 1.0
  {
    hide TypedCases, Scored, SumOf;
    SumsOfRates(cases);
    var s, n := SumOf(Scored(cases)), Max(|cases| as real, 1.0);
    QuotientInUnit(s.recall, n);
    QuotientInUnit(s.hallucination, n);
  }

  lemma QuotientInUnit(a: real, n: real)
    requires n > 0.0 && 0.0 <= a <= n
    ensures 0.0 <= a / n <= 1.0
  {
  }

  // ----- what an average is

  function Plus(a: Score, b: Score): Score {
    Score(a.precision + b.precision, a.recall + b.recall, a.hallucination + b.hallucination)
  }

  /** Each metric times a number of rows. */
  function Scaled(n: nat, s: Score): Score {
    Score(Times(n, s.precision), Times(n, s.recall), Times(n, s.hallucination))
  }

  /** The row of each case: its own metrics, or zero, zero and one when it raised or could not be scored. */
  lemma {:induction false} ScoredAt(cases: seq<CaseRun>)
    requires TypedCases(cases)
    ensures |Scored(cases)| == |cases|
    ensures forall i :: 0 <= i < |cases| ==>
              assert cases[i] in cases;
              Scored(cases)[i] ==
              if cases[i].Raised? || ScoreOf(cases[i].fields).None? then Score(0.0, 0.0, 1.0)
              else ScoreOf(cases[i].fields).value
  {
    hide TypedCase, ScoreOf;
    if cases != [] {
      var init := cases[..|cases| - 1];
      ScoredAt(init);
      assert forall i :: 0 <= i < |init| ==> init[i] == cases[i];
    }
  }

  /** One row averages to its own metrics. */
  lemma AverageOfOne(s: Score)
    ensures Average([s]) == s
  {
    assert [s][..0] == [] && SumOf([]) == Score(0.0, 0.0, 0.0);
    assert SumOf([s]) == s;
  }

  /** Average times count is the sum, for each metric. */
  lemma AverageTimesCount(scored: seq<Score>)
    ensures Scaled(|scored|, Average(scored)) == SumOf(scored)
  {
    assert SumOf([]) == Score(0.0, 0.0, 0.0);
    hide SumOf;
    if scored != [] {
      var s, n := SumOf(scored), |scored| as real;
      QuotientTimes(s.precision, n);
      QuotientTimes(s.recall, n);
      QuotientTimes(s.hallucination, n);
    }
  }

  lemma {:induction false} SumOfConcat(a: seq<Score>, b: seq<Score>)
    ensures SumOf(a + b) == Plus(SumOf(a), SumOf(b))
  {
    if b == [] {
      assert a + b == a;
    } else {
      assert (a + b)[..|a + b| - 1] == a + b[..|b| - 1];
      SumOfConcat(a, b[..|b| - 1]);
    }
  }

  /** Joining rows adds average times count, each metric by itself. */
  lemma AverageJoins(a: seq<Score>, b: seq<Score>)
    ensures Scaled(|a| + |b|, Average(a + b)) == Plus(Scaled(|a|, Average(a)), Scaled(|b|, Average(b)))
  {
    hide Average, SumOf, Scaled;
    AverageTimesCount(a);
    AverageTimesCount(b);
    AverageTimesCount(a + b);
    SumOfConcat(a, b);
  }

  lemma {:induction false} RowsAddUpToOne(cases: seq<CaseRun>)
    requires TypedCases(cases)
    ensures |Scored(cases)| == |cases|
    ensures SumOf(Scored(cases)).recall + SumOf(Scored(cases)).hallucination == |cases| as real
  {
    hide TypedCase, RowOf;
    if cases != [] {
      var init, last := cases[..|cases| - 1], cases[|cases| - 1];
      RowsAddUpToOne(init);
      var scored := Scored(cases);
      assert scored[..|scored| - 1] == Scored(init);
      assert last in cases;
      RowAddsUpToOne(last);
    }
  }

  /** Average hallucination and average recall add up to exactly one, error rows included. */
  lemma AveragesAddUpToOne(cases: seq<CaseRun>)
    requires TypedCases(cases)
    requires cases != []
    ensures Average(Scored(cases)).recall + Average(Scored(cases)).hallucination == 1.0
  {
    hide TypedCases, Scored, SumOf;
    RowsAddUpToOne(cases);
    var s, n := SumOf(Scored(cases)), |cases| as real;
    SplitQuotient(s.recall, s.hallucination, n);
  }

  lemma SplitQuotient(a: real, b: real, n: real)
    requires n > 0.0 && a + b == n
    ensures a / n + b / n == 1.0
  {
    assert (a + b) / n == 1.0;
  }

  // ----- the verdict

  /** The scorer supplies the first three gates and none of the others. */
  lemma OnlyThreeGatesApply(average: Score)
    ensures forall i :: 3 <= i < |QUALITY_GATES| ==>
              !Lookup(GateMetrics(average), QUALITY_GATES[i].metric).Number?
  {
    var m := GateMetrics(average);
    forall i | 3 <= i < |QUALITY_GATES| ensures QUALITY_GATES[i].metric !in m {
      NameLengths(i);
    }
  }

  lemma NameLengths(i: nat)
    requires 3 <= i < |QUALITY_GATES|
    ensures |QUALITY_GATES[i].metric| != 9 && |QUALITY_GATES[i].metric| != 6 && |QUALITY_GATES[i].metric| != 18
  {
  }

  lemma FirstThreeGates()
    ensures |QUALITY_GATES| >= 3
    ensures QUALITY_GATES[0] == Gate("precision", "min", 0.85, BLOCK, "field_extraction")
    ensures QUALITY_GATES[1] == Gate("recall", "min", 0.90, BLOCK, "field_extraction")
    ensures QUALITY_GATES[2] == Gate("hallucination_rate", "max", 0.05, BLOCK, "field_extraction")
  {
  }

  lemma Supplied(average: Score)
    ensures Lookup(GateMetrics(average), "precision") == Number(average.precision)
    ensures Lookup(GateMetrics(average), "recall") == Number(average.recall)
    ensures Lookup(GateMetrics(average), "hallucination_rate") == Number(average.hallucination)
  {
    assert |"precision"| == 9 && |"recall"| == 6 && |"hallucination_rate"| == 18;
  }

  /** The scorer's gates block exactly on low precision, low recall or high hallucination. */
  lemma BlockedIff(average: Score)
    ensures VerdictOf(QUALITY_GATES, GateMetrics(average)) ==
            if average.precision < 0.85 || average.recall < 0.90 || average.hallucination > 0.05 then BLOCKED
            else PASS
  {
    hide QUALITY_GATES, GateMetrics, VerdictOf, Lookup;
    var gates, m := QUALITY_GATES, GateMetrics(average);
    OnlyThreeGatesApply(average);
    FirstThreeGates();
    Supplied(average);
    VerdictIff(gates, m);
    FloorsAndCeilings();
    assert gates[0] in gates && gates[1] in gates && gates[2] in gates;
    forall gate | gate in gates && Violated(gate, m)
      ensures gate == gates[0] || gate == gates[1] || gate == gates[2]
    {
      var i :| 0 <= i < |gates| && gates[i] == gate;
    }
  }

  lemma FloorsAndCeilings()
    ensures forall name, t, s, c :: IsFloor(Gate(name, "min", t, s, c)) && !IsFloor(Gate(name, "max", t, s, c))
  {
    assert "max"[1] != "min"[1];
  }

  /**
   Because the two averages are complementary, the hallucination ceiling decides at recall 0.95
   and the recall floor at 0.90 never decides alone: the scorer passes exactly when precision is
   at least 0.85 and recall at least 0.95, and blocks otherwise.
   */
  lemma ScorerVerdict(cases: seq<CaseRun>)
    requires TypedCases(cases)
    requires cases != []
    ensures
      var average := Average(Scored(cases));
      && VerdictOf(QUALITY_GATES, GateMetrics(average)) ==
         (if average.precision >= 0.85 && average.recall >= 0.95 then PASS else BLOCKED)
      && (average.recall < 0.90 ==> average.hallucination > 0.05)
  {
    hide QUALITY_GATES, GateMetrics, VerdictOf, Average, Scored, TypedCases;
    AveragesAddUpToOne(cases);
    BlockedIff(Average(Scored(cases)));
  }

  // ----- low precision blocks

  /** A case that is scored has field scores adding up to less than 0.84995 a field. */
  ghost predicate LowPrecision(c: CaseRun)
    requires c.Ran? ==> TypedCase(c.fields)
  {
    c.Ran? && FieldScores(c.fields).Some? ==>
      var scores := FieldScores(c.fields).value;
      scores == [] || Sum(scores) < 0.84995 * |scores| as real
  }

  lemma RoundsBelow(x: real)
    requires x < 0.84995
    ensures Round4(x) <= 0.8499
  {
    hide RoundInt;
    RoundIntMonotone(x * 10000.0, 8499.5);
    if RoundInt(x * 10000.0) >= 8500 { RoundIntIff(x * 10000.0, RoundInt(x * 10000.0)); }
  }

  lemma QuotientBelow(a: real, n: real, bound: real)
    requires n > 0.0 && a < bound * n
    ensures a / n < bound
  {
    QuotientTimes(a, n);
  }

  lemma LowRow(c: CaseRun)
    requires c.Ran? ==> TypedCase(c.fields)
    requires LowPrecision(c)
    ensures RowOf(c).precision <= 0.8499
  {
    hide Round4, TypedCase, FieldScores, RecallOf, Sum;
    if c.Ran? && FieldScores(c.fields).Some? {
      var scores := FieldScores(c.fields).value;
      if scores == [] {
        assert Sum(scores) == 0.0 by { SumOfNothing(); }
        RoundsBelow(0.0);
      } else {
        QuotientBelow(Sum(scores), |scores| as real, 0.84995);
        RoundsBelow(Sum(scores) / |scores| as real);
      }
    }
  }

  lemma SumOfNothing()
    ensures Sum([]) == 0.0
  {
  }

  lemma {:induction false} LowRows(cases: seq<CaseRun>)
    requires TypedCases(cases)
    requires forall c :: c in cases ==> LowPrecision(c)
    ensures |Scored(cases)| == |cases|
    ensures SumOf(Scored(cases)).precision <= Times(|cases|, 0.8499)
  {
    hide LowPrecision, TypedCase, RowOf, Times;
    OneMore(if cases == [] then 0 else |cases| - 1, 0.8499);
    if cases != [] {
      var init, last := cases[..|cases| - 1], cases[|cases| - 1];
      assert last in cases && forall c :: c in init ==> c in cases;
      LowRows(init);
      var scored := Scored(cases);
      assert scored[..|scored| - 1] == Scored(init);
      LowRow(last);
    }
  }

  /** When every case's field scores stay below 0.84995 a field, whatever the recall, the scorer blocks. */
  lemma LowPrecisionBlocks(cases: seq<CaseRun>)
    requires TypedCases(cases)
    requires forall c :: c in cases ==> LowPrecision(c)
    ensures Average(Scored(cases)).precision < 0.85
    ensures VerdictOf(QUALITY_GATES, GateMetrics(Average(Scored(cases)))) == BLOCKED
  {
    hide QUALITY_GATES, GateMetrics, VerdictOf, Scored, SumOf, TypedCases, LowPrecision;
    LowRows(cases);
    BlockedIff(Average(Scored(cases)));
    var s, n := SumOf(Scored(cases)).precision, Max(|cases| as real, 1.0);
    QuotientBelow(s, n, 0.85);
  }

  /** With no case at all every average is zero, recall and hallucination do not add up, and precision blocks. */
  lemma NoCases()
    ensures Average(Scored([])) == Score(0.0, 0.0, 0.0)
    ensures VerdictOf(QUALITY_GATES, GateMetrics(Average(Scored([])))) == BLOCKED
  {
    hide QUALITY_GATES, GateMetrics, VerdictOf;
    BlockedIff(Average(Scored([])));
  }
}
