# Verified model of the evaluation governance code and the typed-PDF writer

This project models, in Dafny 4.11, the parts of the repository whose behaviour depends on state, order
or arithmetic, and proves what they guarantee over all inputs and whole runs.

- **Typed PDF** (`Strings`, `Decimal`, `PdfText`, `PdfLayout`, `PdfDocument`, `Pagination`): the writer
  that encodes and escapes text, numbers objects, records offsets and prints the cross-reference table, together
  with an independent reader that follows ISO 32000-1 from `startxref` over the page tree to every
  text operator. The reader recovers every page exactly when the last object starts below 10^10.
- **Experiment log** (`ExperimentLog`, `ExperimentHistory`, `ExperimentStore`): appends, the 500-row
  window, and rewrites. The log is always a suffix of the runs created, and every surviving row is the
  replay of the operations that took effect on it.
- **Drift** (`Dict`, `Numbers`, `Rounding`, `FreshInstallation`, `Drift`, `Champion`, `Trends`): signals and status, the champion
  baseline, chains of promotions, and the moving average of the trend log.
- **Scoring and gates** (`QualityGates`, `Scorer`, `Hitl`, `SlaGate`): case scores, averages, verdicts,
  human review and the SLA gate.
- **Benchmark** (`Benchmark`): percentiles and cost accounting per category.
- **Migration and tables** (`Migration`, `MarkdownTable`): the user migration with its organization
  cache, and the Markdown table printer with two row readers, one for each reading of how section 4.10
  (tables) and section 6.1 (backslash escapes) of the GitHub Flavored Markdown Spec fit together.

Conventions. Bytes are characters, one per byte. Metric arithmetic is exact (`real`), and `round` is
round-half-even. Methods keep the loops and the mutable fields of the source and are proved equal to
specification functions; the lemmas state what those functions mean. `hide` statements only narrow what
a proof looks at. A specification function that a method is proved equal to is in turn fixed by laws over its
inputs: what one element gives, and how two lists join.

What the proofs found about the code, each with its exact condition and, where something fails, an input:

- The four-digit rounding keeps recall and hallucination complementary, so the recall gate at 0.90 never
  decides: the scorer passes exactly at precision 0.85 and recall 0.95 (`Scorer.ScorerVerdict`). The release
  checklist (evaluations/release_process.py:116) lists a 90% recall block beside the 5% hallucination block;
  for the scorer only the second can be decisive.
- Each field without an expectation hides one missed field from recall (`Scorer.PerfectRecallIff`; one miss
  and one absent expectation already give recall one, `Scorer.MissedYetPerfect`), and a negative expected
  number scores above one (`Scorer.PrecisionAboveOneIff`; expecting -1 and finding 1 scores three,
  `Scorer.PrecisionOfThree`).
- A chain of promotions can degrade a metric without bound and without one drift signal
  (`Champion.RatchetGoesUnnoticed`); n quiet promotions stay below n times the watch threshold.
- The SLA gate indexes specs by framework and metric over all tasks and keeps the last, so a task is held to
  its own target exactly when no later spec overrules it (`SlaGate.HeldToOwnIff`). With the shipped matrix a
  reconciliation value of 0.75 passes, though the task demands 1.0 (`SlaGate.ReconciliationSlips`).
- The experiment log loses runs exactly when an update takes effect on more than 500 rows
  (`ExperimentLog.NothingLostIff`; any number of starts above 500 and one empty metrics update,
  `ExperimentLog.LoggingLosesRuns`), and the stage tag can disagree with the stage until the first promotion
  (`ExperimentHistory.StageTagAgreesIff`; a draft started with another stage tag,
  `ExperimentHistory.StageTagDisagrees`).
- A fresh installation reports drift at once: the five demo trend points average to watch against the seeded
  champion (`FreshInstallation.FreshInstallationWatches`).
- The remediation steps are numbered one after the other exactly when the status is not action, where step 3
  occurs twice (`Champion.PlaybookNumberedIff`).
- A reader that binds backslash escapes before it looks for pipes fails to read a printed table row back
  exactly when the row has no cell or a pipe stands behind an odd run of backslashes
  (`MarkdownTable.RowRoundTripIff`; the cell of a backslash and a pipe comes back as two cells,
  `MarkdownTable.BackslashPipeIsSplit`). The failure depends on that reading: if a backslash directly before
  a pipe always escapes it, every row with a cell reads back (`MarkdownTable.DirectRoundTrip`).
- A page size keeps every line above the bottom margin exactly up to 46, the one in use
  (`Pagination.AboveMarginIff`).
- Status monotonicity and the averaging bound of drift detection need no assumption on the thresholds.

## Model

| member | source | states |
|---|---|---|
| PdfDocument.TypedPdf | deliverables/producer/build_SUB-107-126.py:38-73 | the loops emit exactly the file of the document's objects; below 10^10 bytes it can be read, and whenever it can, a reader finds every page in order and every line once, at its height, font and size, each character encoded when none encodes to a carriage return |
| PdfDocument.DocumentShows | deliverables/producer/build_SUB-107-126.py:38-73 | the same of the file, over the text, the weights and the encoding alone |
| PdfDocument.RenderedShowsPage | deliverables/producer/build_SUB-107-126.py:46-54 | a page starts at 760 and falls by 16 below a bold line and 14 below another; bold is font 2 at size 11, other lines font 1 at size 10 |
| PdfDocument.FillObjects | deliverables/producer/build_SUB-107-126.py:41-60 | the dictionary holds exactly the keys 1..4+2n, page i under 5+2i and the stream of its encoded lines under 6+2i |
| PdfDocument.WritePage | deliverables/producer/build_SUB-107-126.py:47-55 | the loop that encodes each line and lets the cursor fall produces the page's operator stream |
| PdfDocument.SortedKeysUpTo | deliverables/producer/build_SUB-107-126.py:63 | sorting the object numbers of a document visits 1, 2, ..., m without a gap |
| PdfDocument.DocumentRoundTrip | deliverables/producer/build_SUB-107-126.py:38-73 | a reader entering at the end of the file recovers every page, line, font, size, position and text in order; exactly when the last object starts below 10^10, otherwise nothing can be read |
| PdfDocument.ReadPageOwn | deliverables/producer/build_SUB-107-126.py:55-60 | page object 5+2i leads to its own stream 6+2i, to its parent and to both fonts, and /Length delimits the stream |
| PdfDocument.ReadTreeOwn | deliverables/producer/build_SUB-107-126.py:42-43 | /Kids decodes to exactly the page objects in order and /Count to their number |
| PdfDocument.FontsFound | deliverables/producer/build_SUB-107-126.py:44-45 | objects 3 and 4 are read as Helvetica and Helvetica-Bold |
| PdfDocument.RenderedAt | deliverables/producer/build_SUB-107-126.py:48-54 | line i is drawn once, at the height left by the lines before it |
| PdfDocument.TextsExactIffNoCr | deliverables/producer/build_SUB-107-126.py:50-53 | a page's text is extracted byte for byte exactly when no line holds a carriage return |
| PdfLayout.ReadTableOwn | deliverables/producer/build_SUB-107-126.py:66-71 | startxref decodes to the table; the table lists object 0 free and objects 1..n at the offsets where they were written, /Size is n+1, the root is 1; there is no readable table when an offset needs eleven digits |
| PdfLayout.FixedWidthIff | deliverables/producer/build_SUB-107-126.py:68-70 | the table has twenty bytes per entry exactly when the last object starts below 10^10 |
| PdfLayout.LocateOwn | deliverables/producer/build_SUB-107-126.py:62-65 | at the decoded offset of entry k stand `k 0 obj`, body k and `endobj` |
| PdfLayout.OffsetsIncrease | deliverables/producer/build_SUB-107-126.py:63-65 | offsets grow strictly with the object number |
| PdfLayout.OpensWithHeader | deliverables/producer/build_SUB-107-126.py:61 | the file opens with its version line and a comment of four bytes above ASCII |
| PdfText.EscapeIsPerByte | deliverables/producer/build_SUB-107-126.py:51 | the three sequential replacements equal one escape per byte |
| PdfText.EscapeLeavesNoBareParenthesis | deliverables/producer/build_SUB-107-126.py:51 | after the escape every parenthesis has its own backslash and no backslash dangles |
| PdfText.LiteralRoundTrip | deliverables/producer/build_SUB-107-126.py:50-53 | a literal-string reader stops at the intended closing parenthesis and returns the text with end-of-line markers normalized |
| PdfText.NormalizeIsIdentityIffNoCr | deliverables/producer/build_SUB-107-126.py:50-53 | the text comes back unchanged exactly when it has no carriage return |
| PdfText.PageStreamRoundTrip | deliverables/producer/build_SUB-107-126.py:46-55 | reading a page's stream gives every line with its font, height and text |
| Decimal.NumeralRoundTrip | deliverables/producer/build_SUB-107-126.py:56-71 | a printed number is read back |
| Decimal.Padded10RoundTrip | deliverables/producer/build_SUB-107-126.py:70 | the zero-filled offset is read back, and has ten digits exactly below 10^10 |
| Pagination.PaginateTyped | deliverables/producer/build_SUB-107-126.py:76-84 | the loops compute the flattened lines cut into pages, nothing lost and every page but the last full; a zero page size raises, a negative one yields one empty page |
| Pagination.FlattenedOne | deliverables/producer/build_SUB-107-126.py:79-83 | a bold line or one of at most 92 characters stays, another becomes its wrapped parts in order, none of them bold |
| Pagination.FlattenedConcat | deliverables/producer/build_SUB-107-126.py:78-83 | joined lines flatten to joined lines |
| Pagination.ShortLinesStay | deliverables/producer/build_SUB-107-126.py:78-83 | lines that are bold or at most 92 characters long are left as they are |
| Pagination.PlaceOfLine | deliverables/producer/build_SUB-107-126.py:84 | line k stands on page k / 46 at place k % 46 |
| Pagination.WriteApplication | deliverables/producer/build_SUB-107-126.py:601 | paginating and writing an application: a reader finds flattened line k on page k / 46 at place k % 46, character by character |
| Pagination.PagesPartition | deliverables/producer/build_SUB-107-126.py:84 | concatenating the pages gives the lines, every page fits, only the last may be short, there is at least one |
| Pagination.NothingLostIff | deliverables/producer/build_SUB-107-126.py:84 | no line is lost exactly when the page size is positive, or negative with no line |
| Pagination.AboveMarginIff | deliverables/producer/build_SUB-107-126.py:48-54 | a page size keeps every line of every page of every application between 40 and 760 points exactly when it is at most 46 |
| Pagination.DrawnAboveMargin | deliverables/producer/build_SUB-107-126.py:46-54 | with the page size in use, every line a reader finds is drawn between 40 and 760 points, whatever the encoding |
| Pagination.BoldPageIsTight | deliverables/producer/build_SUB-107-126.py:54 | the last of 46 bold lines is drawn at exactly 40 |
| Pagination.ApplicationRoundTrip | deliverables/producer/build_SUB-107-126.py:38-84 | paginating, encoding, writing and reading back gives a document exactly when the last object starts below 10^10; it then holds as many texts as there are lines, and the encoded lines in order byte for byte exactly when none has a carriage return |
| ExperimentStore.Store.StartRun | evaluations/release_process.py:207-257 | on a known class and stage appends one row with the call's own run id, name, class, hypothesis, params, registry entry and stage, no metrics, status running, the caller's tags and class and stage where the caller gave none; otherwise raises and changes nothing |
| ExperimentStore.Store.ListRuns | evaluations/release_process.py:264-275 | filters by class and takes the suffix as Python slices it |
| ExperimentLog.TailIs | evaluations/release_process.py:275 | what a positive, zero and negative limit keep |
| ExperimentLog.OfClassConcat | evaluations/release_process.py:264-274 | filtering by class keeps the order of the rows |
| ExperimentLog.OfClassOne | evaluations/release_process.py:264-274 | a row is kept exactly when no class is asked for or it is of that class |
| ExperimentStore.Store.Get | evaluations/release_process.py:277-281 | the first row with the id among the last 500 |
| ExperimentStore.Store.LogMetrics | evaluations/release_process.py:283-307 | the new log and the returned row are those of the specification step |
| ExperimentStore.Store.PromoteTo | evaluations/release_process.py:309-337 | the new log and the returned row are those of the specification step, unknown stages raise |
| ExperimentStore.ReadsBackWhatItWrote | evaluations/release_process.py:277-337 | reading a run right after an effective operation on it returns the reported row |
| ExperimentLog.StartAppendsFreshRow | evaluations/release_process.py:218-257 | a start takes effect exactly on a known class and stage, and then appends one row described field by field |
| ExperimentLog.UpdateTouchesOneRow | evaluations/release_process.py:283-326 | an effective update leaves the last 500 rows and changes only the first row with the id: the logged metrics, or the stage, the stage tag and the status; any other update changes nothing |
| ExperimentLog.LosesRowsIff | evaluations/release_process.py:259-294 | an operation loses rows exactly when it is an effective update on more than 500 rows |
| ExperimentLog.HoldsSuffixOfCreated | evaluations/release_process.py:255-294 | after any run the log is a suffix of the runs created, in creation order |
| ExperimentLog.IdsStayDistinct | evaluations/release_process.py:220-257 | fresh ids stay distinct in the log |
| ExperimentLog.NothingLostIff | evaluations/release_process.py:259-294 | every created run is still there exactly when no effective update met more than 500 rows |
| ExperimentLog.LoggingLosesRuns | evaluations/release_process.py:259-294 | for every n above 500, n fresh starts and one empty metrics update on the newest run leave exactly the last 500 runs |
| ExperimentHistory.RowsReplayTheirHistory | evaluations/release_process.py:222-326 | every row, after any run with fresh ids, is the fold of the effective operations on its id |
| ExperimentHistory.SurvivingRow | evaluations/release_process.py:222-323 | a surviving row has the identity fields of the call that started it, and its metrics, stage, status and every tag are read off its history |
| ExperimentHistory.OriginIsKept | evaluations/release_process.py:222-316 | no update changes the identity of a row or a tag other than the stage |
| ExperimentHistory.MetricsAreLatest | evaluations/release_process.py:288 | each metric is the latest value logged under its key |
| ExperimentHistory.StageIsLatest | evaluations/release_process.py:315 | the stage is the last one promoted to, or the starting one |
| ExperimentHistory.StatusFollowsVerdict | evaluations/release_process.py:318-321 | the status follows the most recent production or rejected promotion, otherwise running |
| ExperimentHistory.StageTagAgreesIff | evaluations/release_process.py:222-226 | the stage tag agrees with the stage exactly when the run was promoted or its start tags carried no other stage |
| ExperimentHistory.StageTagDisagrees | evaluations/release_process.py:222-226 | a draft started with the stage tag "shadow" keeps that tag |
| Drift.CollectSignals | evaluations/drift.py:258-294 | the loop with its skips computes the signal list |
| Drift.WorstOf | evaluations/drift.py:298-302 | the loop computes the worst severity |
| Drift.JudgedIff | evaluations/drift.py:112-120 | a metric is judged as drifted exactly when it got worse by at least the smallest threshold |
| Drift.SeverityIff | evaluations/drift.py:112-120 | critical, action, watch and none, each exactly by the thresholds the worsening reaches, whatever the thresholds |
| Drift.JudgeMonotone | evaluations/drift.py:112-120 | getting worse never lowers a severity |
| Drift.SignalledIff | evaluations/drift.py:260-294 | a metric is signalled exactly when it is in the baseline, numeric on both sides and judged as drifted |
| Drift.SignalsAreFaithful | evaluations/drift.py:284-294 | each signal carries its metric's severity and kind, the baseline, the current value and their difference to four digits, and the direction worse |
| Drift.SignalsInBaselineOrder | evaluations/drift.py:260-294 | signals come in baseline order, no metric twice |
| Drift.StatusIsMaximum | evaluations/drift.py:298-302 | the status bounds every metric's severity, is reached, and is none exactly when there is no signal |
| Drift.StatusIff | evaluations/drift.py:249-302 | the status is the highest level by whose threshold some metric, a number on both sides, got worse |
| Drift.StatusMonotone | evaluations/drift.py:260-302 | making metrics worse never lowers the status |
| Drift.DefaultsAreOrdered | evaluations/drift.py:47-57 | the shipped thresholds and the fallback are positive and increasing |
| Champion.ChampionBaselineStore.Load | evaluations/drift.py:157-162 | returns the saved baseline, seeding an absent file |
| Champion.ChampionBaselineStore.PromoteFromMetrics | evaluations/drift.py:169-184 | saves the merge of the champion with the cleaned metrics; a refused value raises with only the loaded baseline saved |
| Champion.RefusedIff | evaluations/drift.py:176 | a promotion is refused exactly when some value is neither a number nor absent |
| Champion.PresentOne | evaluations/drift.py:176 | a key is kept exactly when its value is a number |
| Champion.PresentConcat | evaluations/drift.py:176 | the kept keys come in order |
| Dict.NewKeysConcat | evaluations/drift.py:176 | keys a merge adds keep the order they came in |
| Dict.NewKeysOne | evaluations/drift.py:176 | a merge adds a key exactly when it is new |
| Champion.DetectDrift | evaluations/drift.py:249-318 | signals, champion version and remediation steps against the given or stored baseline with the given or default thresholds; the status is the highest level by whose threshold some metric got worse |
| Champion.PlaybookNumberedIff | evaluations/drift.py:187-246 | the remediation steps are numbered 1, 2, 3, ... exactly when the status is not action |
| Champion.PlaybookActions | evaluations/drift.py:202-219 | a rollback is prescribed exactly on critical drift, a regression experiment exactly from action upwards |
| Champion.PlaybookIs | evaluations/drift.py:187-246 | the prescribed actions of each status, in order |
| Champion.PromotionMerges | evaluations/drift.py:176 | a promotion drops no key and keeps key order, takes each promoted number, and leaves the rest |
| Champion.FreshChampionIsQuiet | evaluations/drift.py:169-302 | metrics compared with the champion they were just promoted into raise no signal |
| Champion.ChainBound | evaluations/drift.py:169-302 | after n promotions judged none, a metric degraded by less than n times its smallest threshold |
| Champion.ChainBoundDefault | evaluations/drift.py:47-57 | with the shipped thresholds the bound is n times the watch threshold |
| Champion.RatchetGoesUnnoticed | evaluations/drift.py:169-302 | for every step below the threshold and every n there is such a chain degrading by exactly n steps: the bound is tight and no threshold limits the total |
| Trends.EvalTrendStore.Record | evaluations/trend_store.py:20-30 | appends the row |
| Trends.EvalTrendStore.ListRows | evaluations/trend_store.py:32-43 | filters by suite and takes the suffix |
| Trends.OfSuiteSnoc | evaluations/trend_store.py:36-42 | a row is kept exactly when no suite is asked for or it is of that suite, in order |
| Trends.EvalTrendStore.SeedDemo | evaluations/trend_store.py:91-105 | an empty log receives the five demo points and another none; the number of rows added is returned |
| FreshInstallation.FreshInstallationWatches | evaluations/drift.py:328-356 | the five demo points against the seeded champion with the shipped thresholds are at watch |
| FreshInstallation.DemoAverages | evaluations/trend_store.py:96-102 | the averages of the demo points, metric by metric |
| FreshInstallation.FreshSeverities | evaluations/drift.py:47-120 | precision, RAG quality and HITL pass rate are at watch, every other metric at none |
| Trends.AverageRows | evaluations/drift.py:338-352 | the nested loops compute the mean of each metric's numbers, for the metrics that have one |
| Trends.AverageOfOne | evaluations/drift.py:341-352 | one row averages to its own numbers |
| Trends.AverageJoins | evaluations/drift.py:341-352 | for every metric, joining two row lists adds up the numbers counted and the average times that count; a metric is averaged exactly when one of them has it |
| Trends.AveragedIff | evaluations/drift.py:341-352 | a metric is averaged exactly when some row has a number for it |
| Trends.DetectFromTrends | evaluations/drift.py:328-356 | the report on the averaged rows against the champion; it is appended to the drift log exactly when drift is found |
| Trends.AverageSeverityBetween | evaluations/drift.py:341-353 | a metric's severity on the average lies between its severities in two of the averaged rows |
| Trends.AverageStatusBounded | evaluations/drift.py:328-356 | the status on the average never exceeds the worst averaged row's status |
| Rounding.Round4Complement | evaluations/scorer.py:69-70 | rounded to four digits, a rate and its complement still add up to one |
| Rounding.RoundedIff | evaluations/scorer.py:68-71 | rounding gives the nearest decimal, the even one of two that are equally near |
| Scorer.ScoreCase | evaluations/scorer.py:48-72 | the field loop computes precision, recall, hallucination and the rounded field scores, or raises where a field does |
| Scorer.FieldScoreIs | evaluations/scorer.py:13-26 | the score of a field by what is expected and found, and exactly when it raises |
| Scorer.NumberScoreIs | evaluations/scorer.py:18-21 | against a number other than zero, the score times that number is it minus the distance, not below zero for a positive one |
| Scorer.FieldScoresAt | evaluations/scorer.py:52-56 | the scores of a case are those of its fields, in order; a case raises exactly when a field does |
| Scorer.CaseMetricsAre | evaluations/scorer.py:58-71 | a case's metrics over its field scores: their sum over their number, and the recall of the fields scoring at least one half |
| Scorer.RecallIs | evaluations/scorer.py:29-32 | recall times the number expected is the number found, at most the number expected |
| Scorer.ScoreAll | evaluations/scorer.py:75-117 | the case loop with its error rows, the rounded averages, and the full gate summary of the exact averages |
| Scorer.ScoredAt | evaluations/scorer.py:79-94 | each case's row: its own metrics, or zero, zero and one when it raised |
| Scorer.AverageOfOne | evaluations/scorer.py:96-98 | one row averages to its own three metrics |
| Scorer.AverageJoins | evaluations/scorer.py:96-98 | joining rows adds up average times count, each metric by itself |
| Scorer.LowPrecisionBlocks | evaluations/scorer.py:58-117 | when the field scores of every case stay below 0.84995 a field, the scorer blocks, whatever the recall |
| Scorer.PrecisionAboveOneIff | evaluations/scorer.py:13-26 | precision exceeds one exactly when a negative number is expected and another found |
| Scorer.PrecisionOfThree | evaluations/scorer.py:18-21 | expecting -1 and finding 1 scores three |
| Scorer.PerfectRecallIff | evaluations/scorer.py:58-63 | recall is one exactly when nothing is expected or the misses are no more than the fields without an expectation |
| Scorer.MissedYetPerfect | evaluations/scorer.py:58-63 | the one expected field missed and one expectation absent give recall one |
| Scorer.MissedCounts | evaluations/scorer.py:58-63 | the misses are the expected fields that score below one half |
| Scorer.AveragesAreRates | evaluations/scorer.py:85-98 | average recall and average hallucination of any cases lie between zero and one |
| Scorer.AveragesAddUpToOne | evaluations/scorer.py:85-98 | average recall and average hallucination add up to exactly one, error rows included |
| Scorer.BlockedIff | evaluations/quality_gates.py:32-145 | of the fourteen gates the scorer's three metrics meet exactly three: blocked on low precision, low recall or high hallucination, otherwise passed |
| Scorer.ScorerVerdict | evaluations/scorer.py:96-119 | the scorer passes exactly when average precision is at least 0.85 and average recall at least 0.95, and blocks otherwise |
| Scorer.NoCases | evaluations/scorer.py:96-98 | without a case all averages are zero and the verdict is blocked |
| QualityGates.ApplyQualityGates | evaluations/quality_gates.py:148-235 | the gate loop computes the four counters, one result per gate with its observed value, and the verdict |
| QualityGates.CountersAre | evaluations/quality_gates.py:155-220 | blocks and flags count the violated gates of each severity, with passes they count the supplied ones, and with skipped all |
| QualityGates.ViolatedIff | evaluations/quality_gates.py:195 | a gate is violated exactly by a supplied number below its floor or above its ceiling |
| QualityGates.ResultIs | evaluations/quality_gates.py:160-217 | one gate's status, observed value and flag |
| QualityGates.CountersPartition | evaluations/quality_gates.py:155-220 | the four counters add up to the number of gates |
| QualityGates.VerdictIff | evaluations/quality_gates.py:220-227 | each verdict as a statement about which supplied numbers violate which gates |
| QualityGates.VerdictMonotone | evaluations/quality_gates.py:160-227 | moving supplied metrics in their gates' good direction never lowers the verdict |
| Hitl.ComputePass | evaluations/hitl_rubrics.py:221-231 | the loop with early returns decides exactly: no disagreement, no scored dimension below threshold, some score |
| Hitl.Blocking | evaluations/hitl_rubrics.py:233-242 | the loop lists the disagreement and each dimension below threshold, in order |
| Hitl.BlockingConcat | evaluations/hitl_rubrics.py:237-241 | the dimensions below threshold are listed in rubric order |
| Hitl.BlockingOfIs | evaluations/hitl_rubrics.py:233-242 | a disagreement is listed first |
| Hitl.PassIffNothingBlocks | evaluations/hitl_rubrics.py:221-242 | a review passes exactly when nothing blocks it and it has a score |
| Hitl.RubricNamesDistinct | evaluations/hitl_rubrics.py:46-95 | the eight rubric dimensions have distinct names, so the figures per dimension hold for them |
| Hitl.HITLEvalStore.Submit | evaluations/hitl_rubrics.py:155-167 | stamps the review, keeps issues already entered, appends the row, and keeps the log's invariant |
| Hitl.HITLEvalStore.Summarize | evaluations/hitl_rubrics.py:181-219 | the numbers of reviews with each label and of those that passed, distinct cases and reviewers, rounded rates, averages and below-threshold counts |
| Hitl.ScoresOfConcat | evaluations/hitl_rubrics.py:195 | the scores of a dimension come review by review |
| Hitl.AverageIs | evaluations/hitl_rubrics.py:197 | the reported average is the rounded number that, once for each score, gives their total |
| Hitl.TotalOne | evaluations/hitl_rubrics.py:197 | the total of one score is that score |
| Hitl.TotalConcat | evaluations/hitl_rubrics.py:197 | totals of joined scores add up |
| Hitl.BelowCount | evaluations/hitl_rubrics.py:199 | the below-threshold count is the number of scores under the threshold |
| Hitl.UniqueIff | evaluations/hitl_rubrics.py:209-210 | no more distinct names than reviews, and as many exactly when none occurs twice |
| Hitl.FiguresPerDimension | evaluations/hitl_rubrics.py:192-199 | a dimension is reported exactly when it has a score, with its own scores' figures |
| Hitl.LabelsPartition | evaluations/hitl_rubrics.py:186-190 | agree, partial and disagree add up to the total, and passes are at most total minus disagree |
| Hitl.AllPassMeansNoneBelow | evaluations/hitl_rubrics.py:194-199 | if every review passes, every below-threshold count is zero |
| Hitl.AllPassMeansAveragesMeet | evaluations/hitl_rubrics.py:194-198 | if every review passes, every reported average meets its threshold after rounding |
| SlaGate.ApplySlaGate | evaluations/matrix.py:305-356 | violations and per-framework figures over all checks, average score included; the overall verdict is that something was checked and every value meets the target it is held to |
| SlaGate.SpecForIsLast | evaluations/matrix.py:314 | the last spec with a key wins, and a key without a spec has none |
| SlaGate.CheckedIff | evaluations/matrix.py:318-342 | a value is checked exactly when a result of a known framework reports it in a dictionary task and its key has a spec, and it is held to the last such spec's target |
| SlaGate.ResultsJoin | evaluations/matrix.py:318-342 | joined results give joined checks: none twice, none left out, in order |
| SlaGate.FrameworkJoins | evaluations/matrix.py:321-342 | the same for the tasks of one framework |
| SlaGate.TaskJoins | evaluations/matrix.py:324-342 | the same for the entries of one task |
| SlaGate.OneScore | evaluations/matrix.py:330-342 | one check gives its value to its own framework, and a violation exactly when the value is below the target |
| SlaGate.ScoresJoin | evaluations/matrix.py:330-350 | the values of a framework come in the order of the checks |
| SlaGate.ViolationsJoin | evaluations/matrix.py:331-342 | so do the violations |
| SlaGate.GateIs | evaluations/matrix.py:343-353 | a framework's figures: how many of its values were checked, their rounded mean, and that it passes exactly when something was checked and every value meets its target |
| SlaGate.KeyIdentifies | evaluations/matrix.py:314 | a framework whose name has no colon shares a key with nothing else |
| SlaGate.FrameworksHaveNoColon | evaluations/matrix.py:314 | so the keys of the four known frameworks never collide |
| SlaGate.EvaluatedIff | evaluations/matrix.py:343-355 | evaluating framework by framework equals looking at all checks at once |
| SlaGate.OverallPassIff | evaluations/matrix.py:318-355 | there are checks and no violation exactly when some reported number is held to a target and each one so held meets it, stated over the results |
| SlaGate.HeldToOwnIff | evaluations/matrix.py:314-329 | the gate holds a task's metric to the task's own target exactly when no later spec of the key overrules it |
| SlaGate.CheckedAgainstOwnIff | evaluations/matrix.py:314-340 | a checked value of a declaring task is compared with that task's target exactly under the same condition |
| SlaGate.AllHeldToOwnIff | evaluations/matrix.py:314 | every task of a matrix is held to its own targets exactly when specs with the same key agree |
| SlaGate.ReconciliationIsOverruled | evaluations/matrix.py:80-167 | among those three declarations the reconciliation one is overruled by a later one |
| SlaGate.ReconciliationSlips | evaluations/matrix.py:80-167 | with the three shipped declarations of promptfoo:python_assert, a reconciliation value of 0.75 is checked against 0.70 and the gate passes |
| SlaGate.OfflineSubsumed | evaluations/matrix.py:42-45 | with no stricter offline targets, offline violations are online violations of the same value and an online pass is an offline pass |
| Benchmark.IndexIs | evaluations/benchmark.py:448 | the index is the whole part of p percent of n - 1, the last one above 100; below zero it is taken towards zero and counted from the end |
| Benchmark.PctRaisesIff | evaluations/benchmark.py:444-449 | an index error occurs exactly when the position falls n + 1 or more below the first value, so only under percentile -100 |
| Benchmark.PctIsOrderStatistic | evaluations/benchmark.py:444-449 | for every percentile that yields a value, it is a member with index+1 values at or below it and n-index at or above |
| Benchmark.PctIgnoresOrder | evaluations/benchmark.py:444-449 | permuting the values does not change the percentile |
| Benchmark.PctMonotone | evaluations/benchmark.py:444-449 | a higher percentile is never a lower value unless only the lower one counts from the end |
| Benchmark.NegativePercentileWraps | evaluations/benchmark.py:448-449 | of two values, percentile -100 is the last and percentile 0 the first |
| Benchmark.TakenOne | evaluations/benchmark.py:454-458 | a measurement counts exactly when it was taken |
| Benchmark.TakenJoins | evaluations/benchmark.py:454-458 | the measurements taken come in order, none left out |
| Benchmark.ReportedInOrder | evaluations/benchmark.py:452-493 | a percentile is reported exactly when something was measured, and after rounding to six digits p50 is at most p95 |
| Benchmark.CostPerTask | evaluations/benchmark.py:386-432 | the loops compute the rounded weighted total, the cost per task and the closed accounts by category in first-seen order |
| Benchmark.ReportIs | evaluations/benchmark.py:423-432 | the report field by field |
| Benchmark.CostIs | src/insureflow/llm/tracker.py:50-53 | a thousand tokens of one kind cost the price of that kind |
| Benchmark.CostAdds | src/insureflow/llm/tracker.py:50-53 | costs add up token by token |
| Benchmark.TotalsOfOne | evaluations/benchmark.py:410-418 | the totals of one row are its own figures |
| Benchmark.TotalsJoin | evaluations/benchmark.py:410-418 | totals of joined rows add up figure by figure |
| Benchmark.WeightedOfOne | evaluations/benchmark.py:400-409 | one row counts its cost times the weight of its category, or its cost when there is none |
| Benchmark.WeightedJoins | evaluations/benchmark.py:400-409 | the weighted totals of joined rows add up |
| Benchmark.OfCategoryOne | evaluations/benchmark.py:410-418 | a row belongs to its own category |
| Benchmark.OfCategoryJoins | evaluations/benchmark.py:410-418 | the rows of a category come in order |
| Benchmark.CategoriesInFirstSeenOrder | evaluations/benchmark.py:410-413 | the categories are those of the rows, each listed before the ones first seen later |
| Benchmark.CategoryIsItsRows | evaluations/benchmark.py:410-418 | each category's account is the flat total of its own rows, and a category is there exactly when it has a row |
| Benchmark.CategoryIsPriced | evaluations/benchmark.py:420-421 | every reported category has a cost per task: its own rows' cost over their number, six digits |
| Benchmark.AccountsConserve | evaluations/benchmark.py:399-428 | over all categories tasks, tokens and cost add up to the flat totals, and the weighted total is the sum of weight times category cost |
| Migration.Session.Migrate | scripts/migrate_users_to_pg.py:83-136 | the loop over legacy users leaves the tables and counters of the specification run |
| Migration.MigrationAgrees | scripts/migrate_users_to_pg.py:83-136 | every cached name maps to the id of an organization row of that name, migrated plus skipped is the number of users, no organization row is lost and no name gains more than one |
| Migration.MigratedUsersPointHome | scripts/migrate_users_to_pg.py:102-131 | the user table gains one row per migrated user, in order, each a copy of its record with missing names filled in, and pointing to the first organization row of the record's own name, or to none for the default |
| Migration.OrgAddedIff | scripts/migrate_users_to_pg.py:102-114 | a name gains an organization row exactly when it had none and a migrated record names it |
| Migration.SkippedIff | scripts/migrate_users_to_pg.py:88-100 | with one record per username, a record is skipped exactly when it is invalid or its user existed before |
| Migration.SecondRunIsIdle | scripts/migrate_users_to_pg.py:83-136 | running the migration again migrates nobody, adds no organization and changes no row |
| Migration.IdsStayDistinct | scripts/migrate_users_to_pg.py:109-114 | with fresh ids, an organization id names one organization |
| MarkdownTable.Table | scripts/generate_rag_corpus.py:133-138 | header, rule and one printed line per row |
| MarkdownTable.HeaderRoundTrip | scripts/generate_rag_corpus.py:134 | clean headers without pipes read back |
| MarkdownTable.RuleReadsBack | scripts/generate_rag_corpus.py:134 | the rule line reads as one cell of dashes for each header |
| MarkdownTable.BodyRowsAt | scripts/generate_rag_corpus.py:135-138 | there are exactly two more lines than rows, each body line the print of its row |
| MarkdownTable.CleanIsClean | scripts/generate_rag_corpus.py:125-126 | a cleaned cell has no white space but single blanks between characters, none at its ends |
| MarkdownTable.CleanKeepsWords | scripts/generate_rag_corpus.py:125-126 | cleaning keeps every word in order |
| MarkdownTable.CleanKeepsInk | scripts/generate_rag_corpus.py:125-126 | cleaning loses no character but white space and keeps their order |
| MarkdownTable.CleanIsIdentity | scripts/generate_rag_corpus.py:125-126 | a clean text stays as it is |
| MarkdownTable.CleanAddsOnlyBlanks | scripts/generate_rag_corpus.py:125-126 | cleaning brings in no character but blanks |
| MarkdownTable.RowIsOneLine | scripts/generate_rag_corpus.py:135-137 | a printed body row holds no line ending |
| MarkdownTable.BadPipesAreOdd | scripts/generate_rag_corpus.py:136 | the escapes a left-to-right scan loses are exactly the pipes behind an odd run of backslashes |
| MarkdownTable.BarePipes | scripts/generate_rag_corpus.py:136-137 | a printed row has one bare pipe more than cells, plus one for each pipe behind an odd run of backslashes |
| MarkdownTable.RowRoundTripIff | scripts/generate_rag_corpus.py:136-137 | reading a printed row returns the cleaned cells exactly when there is a cell and no pipe stands behind an odd run of backslashes |
| MarkdownTable.CleanCellsRoundTrip | scripts/generate_rag_corpus.py:136-137 | clean cells without such a pipe come back exactly as they were |
| MarkdownTable.BackslashFreeRoundTrip | scripts/generate_rag_corpus.py:136-137 | cells without backslashes always read back, with exactly one bare pipe more than cells |
| MarkdownTable.BackslashPipeIsSplit | scripts/generate_rag_corpus.py:136-137 | the single cell of a backslash and a pipe reads back as two cells |
| MarkdownTable.DirectRoundTrip | scripts/generate_rag_corpus.py:136-137 | a reader that takes every pipe directly behind a backslash as escaped reads every row with a cell back |

## Left out

- `textwrap.wrap` and the cp1252 code table: wrapping is a parameter of pagination, and the encoding is a parameter of the writer, one byte a character.
- The PDF reader accepts the dictionary layout this writer prints, not every layout the standard allows.
- Files, JSON, SQL sessions and commits: a log is a sequence of rows, a table a sequence of records.
- MLflow mirroring, LangSmith, Phoenix, Giskard, Ragas and model calls: foreign services.
- uuids and timestamps: ids are supplied by the caller or by a generator, time fields are dropped.
- Binary floating point, NaN and infinities: metric arithmetic is exact, so the complement law is the law of the exact numbers.
- Champion.DetectDrift: the explanations of the remediation steps and the summary sentence are prose and not modelled.
- Champion.ChampionBaselineStore.PromoteFromMetrics: the generated version name is a parameter.
- Trends.EvalTrendStore.Record: the metadata of a row is not modelled, nothing reads it.
- Scorer.ScoreAll: running the pipeline and the trend, drift and tracking follow-ups are not modelled; a case arrives as its field values or as an exception.
- QualityGates.ApplyQualityGates: a gate carries no description text, and the constant automation notes of the report are not modelled.
- Hitl.HITLEvalStore.Summarize: the ranking of the feedback tags is not modelled.
- Benchmark.CostPerTask: the weights and prices in effect are parameters.
- SlaGate.ReconciliationSlips: only the three specs that share a key are written out; the other specs of the matrix are any.
- Retrying, printing and command-line handling throughout.
