/** Human review of evaluation cases: pass, blocking issues, the review log and its summary. */
module Hitl {
  import opened Strings
  import opened Rounding

  datatype Agree = AGREE | PARTIAL | DISAGREE

  datatype Dimension = Dimension(name: string, threshold: int)

  /** One row of the log: a submitted review as written. */
  datatype Row = Row(
    caseId: string, reviewer: string, scores: map<string, int>, agree: Agree, casePass: bool, blocking: seq<string>)

  const DISAGREES := "human_disagrees_with_ai_decision"

  const BELOW := "below_threshold:"

  const RUBRIC: seq<Dimension> := [
    Dimension("field_extraction_accuracy", 4),
    Dimension("decision_appropriateness", 4),
    Dimension("reasoning_quality", 3),
    Dimension("hallucination_absence", 4),
    Dimension("coverage_completeness", 3),
    Dimension("compliance_safety", 4),
    Dimension("provenance_trust", 4),
    Dimension("overall_production_ready", 4)]

  predicate Falls(d: Dimension, scores: map<string, int>) {
    d.name in scores && scores[d.name] < d.threshold
  }

  /** What a passing review is: no disagreement, no scored dimension below threshold, at least one score. */
  ghost predicate Passes(rubric: seq<Dimension>, scores: map<string, int>, agree: Agree) {
    agree != DISAGREE && scores != map[] && forall d :: d in rubric ==> !Falls(d, scores)
  }

  function BlockingFrom(rubric: seq<Dimension>, scores: map<string, int>): seq<string> {
    if rubric == [] then []
    else
      BlockingFrom(rubric[..|rubric| - 1], scores)
      + if Falls(rubric[|rubric| - 1], scores) then [BELOW + rubric[|rubric| - 1].name] else []
  }

  function BlockingOf(rubric: seq<Dimension>, scores: map<string, int>, agree: Agree): seq<string> {
    (if agree == DISAGREE then [DISAGREES] else []) + BlockingFrom(rubric, scores)
  }

  method ComputePass(rubric: seq<Dimension>, scores: map<string, int>, agree: Agree) returns (r: bool)
    ensures r == Passes(rubric, scores, agree)
  {
    if agree == DISAGREE { return false; }
    for i := 0 to |rubric|
      invariant forall j :: 0 <= j < i ==> !Falls(rubric[j], scores)
    {
      if rubric[i].name !in scores { continue; }
      if scores[rubric[i].name] < rubric[i].threshold {
        assert rubric[i] in rubric;
        return false;
      }
    }
    r := scores != map[];
  }

  method Blocking(rubric: seq<Dimension>, scores: map<string, int>, agree: Agree) returns (issues: seq<string>)
    ensures issues == BlockingOf(rubric, scores, agree)
  {
    hide DISAGREES, BELOW;
    issues := [];
    if agree == DISAGREE { issues := issues + [DISAGREES]; }
    ghost var start := issues;
    for i := 0 to |rubric|
      invariant issues == start + BlockingFrom(rubric[..i], scores)
    {
      assert rubric[..i + 1][..i] == rubric[..i];
      if rubric[i].name in scores && scores[rubric[i].name] < rubric[i].threshold {
        issues := issues + [BELOW + rubric[i].name];
      }
    }
    assert rubric[..|rubric|] == rubric;
  }

  /** A disagreement is listed first, then the dimensions. */
  lemma BlockingOfIs(rubric: seq<Dimension>, scores: map<string, int>, agree: Agree)
    ensures
      var issues := BlockingOf(rubric, scores, agree);
      if agree == DISAGREE then
        issues != [] && issues[0] == "human_disagrees_with_ai_decision" && issues[1..] == BlockingFrom(rubric, scores)
      else issues == BlockingFrom(rubric, scores)
  {
    hide BlockingFrom;
    if agree != DISAGREE { assert [] + BlockingFrom(rubric, scores) == BlockingFrom(rubric, scores); }
  }

  lemma BlockingSnoc(rubric: seq<Dimension>, d: Dimension, scores: map<string, int>)
    ensures BlockingFrom(rubric + [d], scores) ==
            BlockingFrom(rubric, scores)
            + if d.name in scores && scores[d.name] < d.threshold then ["below_threshold:" + d.name] else []
  {
    assert (rubric + [d])[..|rubric|] == rubric;
  }

  /** The dimensions below threshold, in rubric order. */
  lemma {:induction false} BlockingConcat(a: seq<Dimension>, b: seq<Dimension>, scores: map<string, int>)
    ensures BlockingFrom(a + b, scores) == BlockingFrom(a, scores) + BlockingFrom(b, scores)
  {
    if b == [] {
      assert a + b == a && BlockingFrom([], scores) == [];
    } else {
      var init, d := b[..|b| - 1], b[|b| - 1];
      BlockingSnoc(a + init, d, scores);
      BlockingSnoc(init, d, scores);
      hide BlockingFrom;
      BlockingConcat(a, init, scores);
      assert b == init + [d] && a + b == (a + init) + [d];
      Assoc(BlockingFrom(a, scores), BlockingFrom(init, scores),
            if d.name in scores && scores[d.name] < d.threshold then ["below_threshold:" + d.name] else []);
    }
  }

  lemma {:induction false} BlockingFromEmptyIff(rubric: seq<Dimension>, scores: map<string, int>)
    ensures BlockingFrom(rubric, scores) == [] <==> forall d :: d in rubric ==> !Falls(d, scores)
  {
    if rubric != [] {
      var init, last := rubric[..|rubric| - 1], rubric[|rubric| - 1];
      BlockingFromEmptyIff(init, scores);
      assert forall d :: d in rubric <==> d in init || d == last;
    }
  }

  /** The two independent loops agree: a review passes exactly when nothing blocks it and it has a score. */
  lemma PassIffNothingBlocks(rubric: seq<Dimension>, scores: map<string, int>, agree: Agree)
    ensures Passes(rubric, scores, agree) <==> BlockingOf(rubric, scores, agree) == [] && scores != map[]
  {
    BlockingFromEmptyIff(rubric, scores);
  }

  // ----- the review and the log

  class HumanEvalReview {
    const caseId: string
    const reviewer: string
    const scores: map<string, int>
    const agree: Agree
    var casePass: bool
    var blockingIssues: seq<string>

    constructor (caseId: string, reviewer: string, scores: map<string, int>, agree: Agree, casePass: bool,
                 blockingIssues: seq<string>)
      ensures Written() == Row(caseId, reviewer, scores, agree, casePass, blockingIssues)
    {
      this.caseId, this.reviewer, this.scores, this.agree := caseId, reviewer, scores, agree;
      this.casePass, this.blockingIssues := casePass, blockingIssues;
    }

    function Written(): Row
      reads this
    {
      Row(caseId, reviewer, scores, agree, casePass, blockingIssues)
    }
  }

  /** A row as `submit` writes it: the pass is computed, issues the reviewer already entered are kept. */
  ghost predicate Submitted(rubric: seq<Dimension>, row: Row) {
    && row.casePass == Passes(rubric, row.scores, row.agree)
    && (row.blocking == [] ==> BlockingOf(rubric, row.scores, row.agree) == [])
  }

  ghost predicate AllSubmitted(rubric: seq<Dimension>, rows: seq<Row>) {
    forall row :: row in rows ==> Submitted(rubric, row)
  }

  datatype Summary = Summary(
    total: nat, uniqueCases: nat, uniqueReviewers: nat, agree: nat, partial: nat, disagree: nat, passed: nat,
    agreeRate: real, partialRate: real, disagreeRate: real, passRate: real,
    avgScores: map<string, real>, below: map<string, nat>)

  class HITLEvalStore {
    const rubric: seq<Dimension>
    var rows: seq<Row>

    ghost predicate Valid()
      reads this
    {
      AllSubmitted(rubric, rows)
    }

    constructor (rubric: seq<Dimension>)
      ensures Valid() && rows == [] && this.rubric == rubric
    {
      this.rubric := rubric;
      rows := [];
    }

    /** Stamps the review in place and appends it. */
    method Submit(review: HumanEvalReview)
      requires Valid()
      modifies this, review
      ensures Valid()
      ensures review.casePass == Passes(rubric, review.scores, review.agree)
      ensures review.blockingIssues == if old(review.blockingIssues) != [] then old(review.blockingIssues)
                                       else BlockingOf(rubric, review.scores, review.agree)
      ensures
        var row := review.Written();
        && rows == old(rows) + [row]
        && row.caseId == review.caseId && row.reviewer == review.reviewer && row.scores == review.scores
        && row.agree == review.agree && row.casePass == review.casePass && row.blocking == review.blockingIssues
    {
      review.casePass := ComputePass(rubric, review.scores, review.agree);
      if review.blockingIssues == [] {
        review.blockingIssues := Blocking(rubric, review.scores, review.agree);
      }
      rows := rows + [review.Written()];
    }

    method Summarize() returns (s: Summary)
      ensures s.total == |rows|
      ensures s.uniqueCases == |set r | r in rows :: r.caseId|
      ensures s.uniqueReviewers == |set r | r in rows :: r.reviewer|
      ensures s.agree == |Labelled(rows, AGREE)| && s.partial == |Labelled(rows, PARTIAL)|
      ensures s.disagree == |Labelled(rows, DISAGREE)| && s.passed == |Passed(rows)|
      ensures rows != [] ==>
                && s.agreeRate == Round4(s.agree as real / s.total as real)
                && s.partialRate == Round4(s.partial as real / s.total as real)
                && s.disagreeRate == Round4(s.disagree as real / s.total as real)
                && s.passRate == Round4(s.passed as real / s.total as real)
      ensures s.avgScores == Averages(rubric, rows) && s.below == BelowCounts(rubric, rows)
    {
      if rows == [] {
        NothingScored(rubric);
        return Summary(0, 0, 0, 0, 0, 0, 0, 0.0, 0.0, 0.0, 0.0, map[], map[]);
      }
      LabelledCount(rows, AGREE);
      LabelledCount(rows, PARTIAL);
      LabelledCount(rows, DISAGREE);
      PassedCount(rows);
      NamesAreElements(rows);
      hide Round4, Average, CountBelow, ScoresOf, CountAgree, CountPassed, Elements, Labelled, Passed;
      var n := |rows| as real;
      var agree, partial := CountAgree(rows, AGREE), CountAgree(rows, PARTIAL);
      var disagree, passed := CountAgree(rows, DISAGREE), CountPassed(rows);
      var avgScores: map<string, real> := map[];
      var below: map<string, nat> := map[];
      for i := 0 to |rubric|
        invariant avgScores == Averages(rubric[..i], rows) && below == BelowCounts(rubric[..i], rows)
      {
        assert rubric[..i + 1][..i] == rubric[..i];
        var vals := ScoresOf(rows, rubric[i].name);
        if vals != [] {
          avgScores := avgScores[rubric[i].name := Average(vals)];
          below := below[rubric[i].name := CountBelow(vals, rubric[i].threshold)];
        }
      }
      assert rubric[..|rubric|] == rubric;
      s := Summary(|rows|, |Elements(CaseIds(rows))|, |Elements(Reviewers(rows))|, agree, partial, disagree, passed,
                   Round4(agree as real / n), Round4(partial as real / n), Round4(disagree as real / n),
                   Round4(passed as real / n), avgScores, below);
    }
  }

  /** The reviews that carry a label. */
  function Labelled(rows: seq<Row>, given: Agree): set<int> {
    set i | 0 <= i < |rows| && rows[i].agree == given
  }

  /** The reviews that passed. */
  function Passed(rows: seq<Row>): set<int> {
    set i | 0 <= i < |rows| && rows[i].casePass
  }

  lemma {:induction false} LabelledCount(rows: seq<Row>, given: Agree)
    ensures CountAgree(rows, given) == |Labelled(rows, given)|
  {
    if rows != [] {
      var init, n := rows[..|rows| - 1], |rows| - 1;
      LabelledCount(init, given);
      assert n !in Labelled(init, given);
      assert Labelled(rows, given) == Labelled(init, given) + if rows[n].agree == given then {n} else {};
    }
  }

  lemma {:induction false} PassedCount(rows: seq<Row>)
    ensures CountPassed(rows) == |Passed(rows)|
  {
    if rows != [] {
      var init, n := rows[..|rows| - 1], |rows| - 1;
      PassedCount(init);
      assert n !in Passed(init);
      assert Passed(rows) == Passed(init) + if rows[n].casePass then {n} else {};
    }
  }

  lemma {:induction false} BelowCount(vals: seq<int>, threshold: int)
    ensures CountBelow(vals, threshold) == |set i | 0 <= i < |vals| && vals[i] < threshold|
  {
    if vals != [] {
      var init, n := vals[..|vals| - 1], |vals| - 1;
      BelowCount(init, threshold);
      assert (set i | 0 <= i < |vals| && vals[i] < threshold)
          == (set i | 0 <= i < |init| && init[i] < threshold) + if vals[n] < threshold then {n} else {};
    }
  }

  lemma NamesAreElements(rows: seq<Row>)
    ensures Elements(CaseIds(rows)) == set r | r in rows :: r.caseId
    ensures Elements(Reviewers(rows)) == set r | r in rows :: r.reviewer
  {
    forall r | r in rows ensures r.caseId in CaseIds(rows) && r.reviewer in Reviewers(rows) {
      var i :| 0 <= i < |rows| && rows[i] == r;
      assert CaseIds(rows)[i] == r.caseId && Reviewers(rows)[i] == r.reviewer;
    }
  }

  lemma ScoresOfSnoc(rows: seq<Row>, row: Row, name: string)
    ensures ScoresOf(rows + [row], name) == ScoresOf(rows, name) + if name in row.scores then [row.scores[name]] else []
  {
    assert (rows + [row])[..|rows|] == rows;
  }

  /** The scores of a dimension, review by review, in order. */
  lemma {:induction false} ScoresOfConcat(a: seq<Row>, b: seq<Row>, name: string)
    ensures ScoresOf(a + b, name) == ScoresOf(a, name) + ScoresOf(b, name)
  {
    if b == [] {
      assert a + b == a && ScoresOf([], name) == [];
    } else {
      var init, row := b[..|b| - 1], b[|b| - 1];
      ScoresOfSnoc(a + init, row, name);
      ScoresOfSnoc(init, row, name);
      hide ScoresOf;
      ScoresOfConcat(a, init, name);
      assert b == init + [row] && a + b == (a + init) + [row];
      Assoc(ScoresOf(a, name), ScoresOf(init, name), if name in row.scores then [row.scores[name]] else []);
    }
  }

  /** The reported average is the rounded number that, taken once for each score, gives their total. */
  lemma AverageIs(vals: seq<int>, mean: real)
    requires vals != [] && mean * |vals| as real == Total(vals) as real
    ensures Average(vals) == Round3(mean)
  {
    hide Round3, Total;
    assert mean == Total(vals) as real / |vals| as real;
  }

  lemma TotalOne(v: int)
    ensures Total([v]) == v
  {
    assert [v][..0] == [] && Total([]) == 0;
  }

  lemma {:induction false} TotalConcat(a: seq<int>, b: seq<int>)
    ensures Total(a + b) == Total(a) + Total(b)
  {
    if b == [] {
      assert a + b == a;
    } else {
      assert (a + b)[..|a + b| - 1] == a + b[..|b| - 1];
      TotalConcat(a, b[..|b| - 1]);
    }
  }

  function CaseIds(rows: seq<Row>): seq<string> {
    seq(|rows|, i requires 0 <= i < |rows| => rows[i].caseId)
  }

  function Reviewers(rows: seq<Row>): seq<string> {
    seq(|rows|, i requires 0 <= i < |rows| => rows[i].reviewer)
  }

  function Elements(names: seq<string>): set<string> {
    set n | n in names
  }

  lemma DistinctSnoc(init: seq<string>, last: string)
    ensures Distinct(init + [last]) <==> Distinct(init) && last !in init
  {
    var names := init + [last];
    assert forall i :: 0 <= i < |init| ==> names[i] == init[i];
    assert names[|init|] == last;
  }

  /** No more names than rows, and as many exactly when no name occurs twice. */
  lemma {:induction false} UniqueIff(names: seq<string>)
    ensures |Elements(names)| <= |names|
    ensures |Elements(names)| == |names| <==> Distinct(names)
  {
    if names != [] {
      var init, last := names[..|names| - 1], names[|names| - 1];
      hide Distinct;
      UniqueIff(init);
      DistinctSnoc(init, last);
      assert names == init + [last];
      assert Elements(names) == Elements(init) + {last};
    }
  }

  ghost predicate DistinctNames(rubric: seq<Dimension>) {
    forall i, j :: 0 <= i < j < |rubric| ==> rubric[i].name != rubric[j].name
  }

  lemma RubricNamesDistinct()
    ensures DistinctNames(RUBRIC)
  {
    var lengths := [25, 24, 17, 21, 21, 17, 16, 24];
    var initials := ['f', 'd', 'r', 'h', 'c', 'c', 'p', 'o'];
    assert |RUBRIC| == 8;
    assert forall i :: 0 <= i < 8 ==> |RUBRIC[i].name| == lengths[i] && RUBRIC[i].name[0] == initials[i];
    assert forall i, j :: 0 <= i < j < 8 ==> lengths[i] != lengths[j] || initials[i] != initials[j];
  }

  function CountAgree(rows: seq<Row>, which: Agree): nat {
    if rows == [] then 0
    else CountAgree(rows[..|rows| - 1], which) + if rows[|rows| - 1].agree == which then 1 else 0
  }

  function CountPassed(rows: seq<Row>): nat {
    if rows == [] then 0 else CountPassed(rows[..|rows| - 1]) + if rows[|rows| - 1].casePass then 1 else 0
  }

  /** The scores given for one dimension, review by review. */
  function ScoresOf(rows: seq<Row>, name: string): seq<int> {
    if rows == [] then []
    else
      var last := rows[|rows| - 1];
      ScoresOf(rows[..|rows| - 1], name) + if name in last.scores then [last.scores[name]] else []
  }

  function Total(vals: seq<int>): int {
    if vals == [] then 0 else Total(vals[..|vals| - 1]) + vals[|vals| - 1]
  }

  function Average(vals: seq<int>): real
    requires vals != []
  {
    Round3(Total(vals) as real / |vals| as real)
  }

  function CountBelow(vals: seq<int>, threshold: int): nat {
    if vals == [] then 0
    else CountBelow(vals[..|vals| - 1], threshold) + if vals[|vals| - 1] < threshold then 1 else 0
  }

  /** `avg_scores`: filled dimension by dimension, only where there is a score. */
  function Averages(rubric: seq<Dimension>, rows: seq<Row>): map<string, real> {
    if rubric == [] then map[]
    else
      var init, d := Averages(rubric[..|rubric| - 1], rows), rubric[|rubric| - 1];
      var vals := ScoresOf(rows, d.name);
      if vals == [] then init else init[d.name := Average(vals)]
  }

  /** `below_threshold` */
  function BelowCounts(rubric: seq<Dimension>, rows: seq<Row>): map<string, nat> {
    if rubric == [] then map[]
    else
      var init, d := BelowCounts(rubric[..|rubric| - 1], rows), rubric[|rubric| - 1];
      var vals := ScoresOf(rows, d.name);
      if vals == [] then init else init[d.name := CountBelow(vals, d.threshold)]
  }

  lemma {:induction false} NothingScored(rubric: seq<Dimension>)
    ensures Averages(rubric, []) == map[] && BelowCounts(rubric, []) == map[]
  {
    if rubric != [] { NothingScored(rubric[..|rubric| - 1]); }
  }

  /** With distinct names, each reported figure is about its own dimension's scores. */
  lemma {:induction false} FiguresPerDimension(rubric: seq<Dimension>, rows: seq<Row>, k: nat)
    requires DistinctNames(rubric) && k < |rubric|
    ensures
      var d := rubric[k];
      var vals := ScoresOf(rows, d.name);
      && (d.name in BelowCounts(rubric, rows) <==> vals != [])
      && (d.name in Averages(rubric, rows) <==> vals != [])
      && (vals != [] ==> BelowCounts(rubric, rows)[d.name] == CountBelow(vals, d.threshold)
                         && Averages(rubric, rows)[d.name] == Average(vals))
  {
    hide ScoresOf, CountBelow, Average;
    var init, last := rubric[..|rubric| - 1], rubric[|rubric| - 1];
    if k < |init| {
      FiguresPerDimension(init, rows, k);
    } else {
      UnnamedHasNoFigure(init, rows, last.name);
    }
  }

  lemma {:induction false} UnnamedHasNoFigure(rubric: seq<Dimension>, rows: seq<Row>, name: string)
    requires forall i :: 0 <= i < |rubric| ==> rubric[i].name != name
    ensures name !in Averages(rubric, rows) && name !in BelowCounts(rubric, rows)
  {
    hide ScoresOf, CountBelow, Average;
    if rubric != [] { UnnamedHasNoFigure(rubric[..|rubric| - 1], rows, name); }
  }

  // ----- what every submitted log satisfies

  /** The three labels partition the reviews, and no review that disagrees passes. */
  lemma {:induction false} LabelsPartition(rubric: seq<Dimension>, rows: seq<Row>)
    requires AllSubmitted(rubric, rows)
    ensures CountAgree(rows, AGREE) + CountAgree(rows, PARTIAL) + CountAgree(rows, DISAGREE) == |rows|
    ensures CountPassed(rows) <= |rows| - CountAgree(rows, DISAGREE)
  {
    if rows != [] {
      var init, last := rows[..|rows| - 1], rows[|rows| - 1];
      LabelsPartition(rubric, init);
      assert last in rows;
    }
  }

  ghost predicate AllAtLeast(vals: seq<int>, t: int) {
    forall i :: 0 <= i < |vals| ==> vals[i] >= t
  }

  lemma {:induction false} NoneBelowIff(vals: seq<int>, t: int)
    ensures CountBelow(vals, t) == 0 <==> AllAtLeast(vals, t)
  {
    if vals != [] { NoneBelowIff(vals[..|vals| - 1], t); }
  }

  /** In a log where every review passes, every score on a rubric dimension meets its threshold. */
  lemma {:induction false} AllPassMeansScoresMeet(rubric: seq<Dimension>, rows: seq<Row>, d: Dimension)
    requires AllSubmitted(rubric, rows) && d in rubric
    requires CountPassed(rows) == |rows|
    ensures AllAtLeast(ScoresOf(rows, d.name), d.threshold)
  {
    if rows != [] {
      var init, last := rows[..|rows| - 1], rows[|rows| - 1];
      PassedAtMost(init);
      AllPassMeansScoresMeet(rubric, init, d);
      assert last in rows;
      assert !Falls(d, last.scores);
    }
  }

  /** So no dimension counts a review below threshold. */
  lemma AllPassMeansNoneBelow(rubric: seq<Dimension>, rows: seq<Row>, k: nat)
    requires AllSubmitted(rubric, rows) && DistinctNames(rubric) && k < |rubric|
    requires CountPassed(rows) == |rows| && rubric[k].name in BelowCounts(rubric, rows)
    ensures BelowCounts(rubric, rows)[rubric[k].name] == 0
  {
    AllPassMeansScoresMeet(rubric, rows, rubric[k]);
    NoneBelowIff(ScoresOf(rows, rubric[k].name), rubric[k].threshold);
    FiguresPerDimension(rubric, rows, k);
  }

  lemma {:induction false} PassedAtMost(rows: seq<Row>)
    ensures CountPassed(rows) <= |rows|
  {
    if rows != [] { PassedAtMost(rows[..|rows| - 1]); }
  }

  lemma {:induction false} TotalAtLeast(vals: seq<int>, t: int)
    requires AllAtLeast(vals, t)
    ensures Total(vals) >= |vals| * t
  {
    if vals != [] { TotalAtLeast(vals[..|vals| - 1], t); }
  }

  /** Then every reported average meets its threshold, even after rounding to three digits. */
  lemma AllPassMeansAveragesMeet(rubric: seq<Dimension>, rows: seq<Row>, k: nat)
    requires AllSubmitted(rubric, rows) && DistinctNames(rubric) && k < |rubric|
    requires CountPassed(rows) == |rows| && rubric[k].name in Averages(rubric, rows)
    ensures Averages(rubric, rows)[rubric[k].name] >= rubric[k].threshold as real
  {
    hide Total, Round3, ScoresOf, Averages, BelowCounts, CountPassed;
    var d := rubric[k];
    var vals := ScoresOf(rows, d.name);
    FiguresPerDimension(rubric, rows, k);
    AllPassMeansScoresMeet(rubric, rows, d);
    TotalAtLeast(vals, d.threshold);
    MeanAtLeast(Total(vals), |vals|, d.threshold);
    Round3Monotone(d.threshold as real, Total(vals) as real / |vals| as real);
    Round3OfInt(d.threshold);
  }

  lemma MeanAtLeast(total: int, n: nat, t: int)
    requires n > 0 && total >= n * t
    ensures total as real / n as real >= t as real
  {
    assert total as real >= (n * t) as real == n as real * t as real;
  }
}
