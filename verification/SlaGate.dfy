/** `apply_sla_gate`: per-metric averages against the targets of the evaluation matrix. */
module SlaGate {
  import opened Numbers
  import opened Rounding
  import opened Wrappers

  /** What one task declares for one metric; the specs are listed task by task. */
  datatype Spec = Spec(task: string, framework: string, metric: string, target: real, offlineTarget: Option<real>) {
    function SlaTarget(offline: bool): real {
      if offline && offlineTarget.Some? then offlineTarget.value else target
    }
  }

  /** One number of one task's result; a value that is not a number is `None`. */
  datatype Entry = Entry(metric: string, avg: Option<real>)

  /** A task result is a dictionary of entries, or something else that is passed over. */
  datatype TaskResult = Other(task: string) | Metrics(task: string, entries: seq<Entry>)

  datatype FrameworkResult = FrameworkResult(framework: string, tasks: seq<TaskResult>)

  datatype Check = Check(framework: string, task: string, metric: string, avg: real, target: real)

  datatype FrameworkGate = FrameworkGate(metricsChecked: nat, avgScore: Option<real>, pass: bool)

  const FRAMEWORKS: seq<string> := ["ragas", "deepeval", "promptfoo", "phoenix"]

  function Key(framework: string, metric: string): string {
    framework + ":" + metric
  }

  /** The index comprehension over all tasks' specs: the last spec with a key wins. */
  function SpecFor(specs: seq<Spec>, key: string): Option<Spec> {
    if specs == [] then None
    else if Key(specs[|specs| - 1].framework, specs[|specs| - 1].metric) == key then Some(specs[|specs| - 1])
    else SpecFor(specs[..|specs| - 1], key)
  }

  predicate Carries(specs: seq<Spec>, key: string, i: int) {
    0 <= i < |specs| && Key(specs[i].framework, specs[i].metric) == key
  }

  /** Position i holds the last spec with the key. */
  ghost predicate IsLast(specs: seq<Spec>, key: string, i: int) {
    Carries(specs, key, i) && forall j :: i < j < |specs| ==> !Carries(specs, key, j)
  }

  /** The index keeps the last spec of each key, and has no entry for a key nobody declares. */
  lemma {:induction false} SpecForIsLast(specs: seq<Spec>, key: string)
    ensures
      match SpecFor(specs, key)
      case None => forall i :: !Carries(specs, key, i)
      case Some(spec) => exists i :: IsLast(specs, key, i) && specs[i] == spec
  {
    hide Key;
    if specs != [] {
      var init, last := specs[..|specs| - 1], specs[|specs| - 1];
      SpecForIsLast(init, key);
      assert forall i :: 0 <= i < |init| ==> (Carries(init, key, i) <==> Carries(specs, key, i));
      if Key(last.framework, last.metric) == key {
        assert IsLast(specs, key, |specs| - 1);
      } else if SpecFor(init, key).Some? {
        var i :| IsLast(init, key, i) && init[i] == SpecFor(init, key).value;
        assert IsLast(specs, key, i) && specs[i] == init[i];
      } else {
        assert forall i :: Carries(specs, key, i) ==> i == |init| || Carries(init, key, i);
      }
    }
  }

  lemma KeyHead(f: string, m: string)
    ensures Key(f, m) == if f == [] then [':'] + m else [f[0]] + Key(f[1..], m)
  {
  }

  lemma SameHead(a: char, s: string, b: char, t: string)
    ensures [a] + s == [b] + t <==> a == b && s == t
  {
    assert ([a] + s)[1..] == s && ([b] + t)[1..] == t;
    assert ([a] + s)[0] == a && ([b] + t)[0] == b;
  }

  /** A framework whose name has no colon shares a key with nothing else. */
  lemma {:induction false} KeyIdentifies(f: string, m: string, g: string, n: string)
    requires ':' !in f && ':' !in g
    ensures Key(f, m) == Key(g, n) <==> f == g && m == n
  {
    hide Key;
    KeyHead(f, m);
    KeyHead(g, n);
    SameHead(if f == [] then ':' else f[0], if f == [] then m else Key(f[1..], m),
             if g == [] then ':' else g[0], if g == [] then n else Key(g[1..], n));
    if f != [] && g != [] {
      KeyIdentifies(f[1..], m, g[1..], n);
      SameHead(f[0], f[1..], g[0], g[1..]);
      assert f == [f[0]] + f[1..] && g == [g[0]] + g[1..];
    }
  }

  lemma FrameworksHaveNoColon()
    ensures forall i :: 0 <= i < |FRAMEWORKS| ==> ':' !in FRAMEWORKS[i]
    ensures |FRAMEWORKS| == 4
  {
  }

  // ----- the checks, level by level

  function CheckEntry(specs: seq<Spec>, offline: bool, framework: string, task: string, e: Entry): seq<Check> {
    if e.avg.None? || SpecFor(specs, Key(framework, e.metric)).None? then []
    else
      var spec := SpecFor(specs, Key(framework, e.metric)).value;
      [Check(framework, task, e.metric, e.avg.value, spec.SlaTarget(offline))]
  }

  function CheckTask(
    specs: seq<Spec>, offline: bool, framework: string, task: string, entries: seq<Entry>): seq<Check>
  {
    if entries == [] then []
    else
      CheckTask(specs, offline, framework, task, entries[..|entries| - 1])
      + CheckEntry(specs, offline, framework, task, entries[|entries| - 1])
  }

  function CheckFramework(specs: seq<Spec>, offline: bool, framework: string, tasks: seq<TaskResult>): seq<Check> {
    if tasks == [] then []
    else
      var last := tasks[|tasks| - 1];
      CheckFramework(specs, offline, framework, tasks[..|tasks| - 1])
      + if last.Other? then [] else CheckTask(specs, offline, framework, last.task, last.entries)
  }

  /** Every value that is held against a target, in the order of the results. */
  function Checks(specs: seq<Spec>, offline: bool, results: seq<FrameworkResult>): seq<Check> {
    if results == [] then []
    else
      var last := results[|results| - 1];
      Checks(specs, offline, results[..|results| - 1])
      + if last.framework !in FRAMEWORKS then [] else CheckFramework(specs, offline, last.framework, last.tasks)
  }

  predicate Misses(c: Check) {
    c.avg < c.target
  }

  function Violations(checks: seq<Check>): seq<Check> {
    if checks == [] then []
    else Violations(checks[..|checks| - 1]) + if Misses(checks[|checks| - 1]) then [checks[|checks| - 1]] else []
  }

  function CountFor(checks: seq<Check>, framework: string): nat {
    if checks == [] then 0
    else CountFor(checks[..|checks| - 1], framework) + if checks[|checks| - 1].framework == framework then 1 else 0
  }

  /** The values checked for one framework. */
  function ScoresOf(checks: seq<Check>, framework: string): seq<real> {
    if checks == [] then []
    else
      ScoresOf(checks[..|checks| - 1], framework)
      + if checks[|checks| - 1].framework == framework then [checks[|checks| - 1].avg] else []
  }

  function GateOf(checks: seq<Check>, violations: seq<Check>, framework: string): FrameworkGate {
    var vals := ScoresOf(checks, framework);
    FrameworkGate(|vals|, if vals == [] then None else Some(Round4(Sum(vals) / Max(|vals| as real, 1.0))),
                  CountFor(violations, framework) == 0 && vals != [])
  }

  lemma {:induction false} ScoresCounted(checks: seq<Check>, framework: string)
    ensures |ScoresOf(checks, framework)| == CountFor(checks, framework)
  {
    if checks != [] { ScoresCounted(checks[..|checks| - 1], framework); }
  }

  /** The checks of one framework. */
  function Own(checks: seq<Check>, framework: string): set<int> {
    set i | 0 <= i < |checks| && checks[i].framework == framework
  }

  lemma {:induction false} OwnCounted(checks: seq<Check>, framework: string)
    ensures CountFor(checks, framework) == |Own(checks, framework)|
  {
    if checks != [] {
      var init, n := checks[..|checks| - 1], |checks| - 1;
      OwnCounted(init, framework);
      assert n !in Own(init, framework);
      assert Own(checks, framework) == Own(init, framework) + if checks[n].framework == framework then {n} else {};
    }
  }

  /** A framework's figures: how many of its values were checked, and whether one of them is a violation. */
  lemma GateIs(checks: seq<Check>, framework: string)
    ensures
      var gate := GateOf(checks, Violations(checks), framework);
      && gate.metricsChecked == |Own(checks, framework)| == |ScoresOf(checks, framework)|
      && (gate.avgScore.Some? <==> Own(checks, framework) != {})
      && (gate.avgScore.Some? ==>
            gate.avgScore == Some(Round4(Sum(ScoresOf(checks, framework)) / gate.metricsChecked as real)))
      && (gate.pass <==> Own(checks, framework) != {}
                         && forall c :: c in checks && c.framework == framework ==> c.avg >= c.target)
  {
    hide CountFor, ScoresOf, Violations, Sum, Round4;
    ScoresCounted(checks, framework);
    OwnCounted(checks, framework);
    CountedIff(Violations(checks), framework);
    ViolationsAre(checks);
  }

  /** The values of a framework come in the order of the checks. */
  lemma {:induction false} ScoresJoin(a: seq<Check>, b: seq<Check>, framework: string)
    ensures ScoresOf(a + b, framework) == ScoresOf(a, framework) + ScoresOf(b, framework)
  {
    if b == [] {
      assert a + b == a;
    } else {
      assert (a + b)[..|a + b| - 1] == a + b[..|b| - 1];
      ScoresJoin(a, b[..|b| - 1], framework);
    }
  }

  lemma OneScore(c: Check, framework: string)
    ensures ScoresOf([c], framework) == if c.framework == framework then [c.avg] else []
    ensures Violations([c]) == if c.avg < c.target then [c] else []
  {
    assert [c][..0] == [];
  }

  /** So do the violations. */
  lemma {:induction false} ViolationsJoin(a: seq<Check>, b: seq<Check>)
    ensures Violations(a + b) == Violations(a) + Violations(b)
  {
    if b == [] {
      assert a + b == a;
    } else {
      assert (a + b)[..|a + b| - 1] == a + b[..|b| - 1];
      ViolationsJoin(a, b[..|b| - 1]);
    }
  }

  lemma {:induction false} TaskJoins(
    specs: seq<Spec>, offline: bool, framework: string, task: string, a: seq<Entry>, b: seq<Entry>)
    ensures CheckTask(specs, offline, framework, task, a + b) ==
            CheckTask(specs, offline, framework, task, a) + CheckTask(specs, offline, framework, task, b)
  {
    hide CheckEntry;
    if b == [] {
      assert a + b == a;
    } else {
      assert (a + b)[..|a + b| - 1] == a + b[..|b| - 1];
      TaskJoins(specs, offline, framework, task, a, b[..|b| - 1]);
    }
  }

  lemma {:induction false} FrameworkJoins(
    specs: seq<Spec>, offline: bool, framework: string, a: seq<TaskResult>, b: seq<TaskResult>)
    ensures CheckFramework(specs, offline, framework, a + b) ==
            CheckFramework(specs, offline, framework, a) + CheckFramework(specs, offline, framework, b)
  {
    hide CheckTask;
    if b == [] {
      assert a + b == a;
    } else {
      assert (a + b)[..|a + b| - 1] == a + b[..|b| - 1];
      FrameworkJoins(specs, offline, framework, a, b[..|b| - 1]);
    }
  }

  /** The checks of a list of results are those of its parts, one after the other: none twice, none left out. */
  lemma {:induction false} ResultsJoin(
    specs: seq<Spec>, offline: bool, a: seq<FrameworkResult>, b: seq<FrameworkResult>)
    ensures Checks(specs, offline, a + b) == Checks(specs, offline, a) + Checks(specs, offline, b)
  {
    hide CheckFramework, FRAMEWORKS;
    if b == [] {
      assert a + b == a;
    } else {
      assert (a + b)[..|a + b| - 1] == a + b[..|b| - 1];
      ResultsJoin(specs, offline, a, b[..|b| - 1]);
    }
  }

  /** Among the first n frameworks, one had a value checked. */
  predicate AnyEvaluated(checks: seq<Check>, n: nat)
    requires n <= |FRAMEWORKS|
  {
    exists i :: 0 <= i < n && CountFor(checks, FRAMEWORKS[i]) > 0
  }

  /** Among the first n frameworks, none that had a value checked has a violation. */
  predicate AllEvaluatedPass(checks: seq<Check>, n: nat)
    requires n <= |FRAMEWORKS|
  {
    forall i :: 0 <= i < n && CountFor(checks, FRAMEWORKS[i]) > 0 ==> CountFor(Violations(checks), FRAMEWORKS[i]) == 0
  }

  method CollectTask(specs: seq<Spec>, offline: bool, framework: string, task: string, entries: seq<Entry>,
                     before: seq<Check>) returns (checks: seq<Check>)
    ensures checks == before + CheckTask(specs, offline, framework, task, entries)
  {
    hide Key, SpecFor;
    checks := before;
    for i := 0 to |entries|
      invariant checks == before + CheckTask(specs, offline, framework, task, entries[..i])
    {
      assert entries[..i + 1][..i] == entries[..i];
      var e := entries[i];
      if e.avg.None? { continue; }
      var spec := SpecFor(specs, Key(framework, e.metric));
      if spec.None? { continue; }
      checks := checks + [Check(framework, task, e.metric, e.avg.value, spec.value.SlaTarget(offline))];
    }
    assert entries[..|entries|] == entries;
  }

  method CollectFramework(specs: seq<Spec>, offline: bool, framework: string, tasks: seq<TaskResult>,
                          before: seq<Check>) returns (checks: seq<Check>)
    ensures checks == before + CheckFramework(specs, offline, framework, tasks)
  {
    hide CheckTask;
    checks := before;
    for i := 0 to |tasks|
      invariant checks == before + CheckFramework(specs, offline, framework, tasks[..i])
    {
      assert tasks[..i + 1][..i] == tasks[..i];
      if tasks[i].Other? { continue; }
      checks := CollectTask(specs, offline, framework, tasks[i].task, tasks[i].entries, checks);
    }
    assert tasks[..|tasks|] == tasks;
  }

  method FindViolations(checks: seq<Check>) returns (violations: seq<Check>)
    ensures violations == Violations(checks)
  {
    violations := [];
    for i := 0 to |checks|
      invariant violations == Violations(checks[..i])
    {
      assert checks[..i + 1][..i] == checks[..i];
      if checks[i].avg < checks[i].target { violations := violations + [checks[i]]; }
    }
    assert checks[..|checks|] == checks;
  }

  method CollectAll(specs: seq<Spec>, offline: bool, results: seq<FrameworkResult>) returns (checks: seq<Check>)
    ensures checks == Checks(specs, offline, results)
  {
    hide FRAMEWORKS, CheckFramework;
    checks := [];
    for i := 0 to |results|
      invariant checks == Checks(specs, offline, results[..i])
    {
      assert results[..i + 1][..i] == results[..i];
      if results[i].framework !in FRAMEWORKS { continue; }
      checks := CollectFramework(specs, offline, results[i].framework, results[i].tasks, checks);
    }
    assert results[..|results|] == results;
  }

  method ApplySlaGate(specs: seq<Spec>, results: seq<FrameworkResult>, offline: bool)
    returns (violations: seq<Check>, gates: seq<FrameworkGate>, overallPass: bool)
    ensures violations == Violations(Checks(specs, offline, results))
    ensures |gates| == |FRAMEWORKS|
    ensures forall i :: 0 <= i < |gates| ==>
              gates[i] == GateOf(Checks(specs, offline, results), violations, FRAMEWORKS[i])
    ensures overallPass == Passes(specs, offline, results)
  {
    hide FRAMEWORKS, CheckFramework, CountFor, ScoresOf, Checks, Violations, Round4, Sum, Passes;
    var checks := CollectAll(specs, offline, results);
    violations := FindViolations(checks);
    gates := [];
    var evaluated, allPass := false, true;
    for i := 0 to |FRAMEWORKS|
      invariant |gates| == i
      invariant forall j :: 0 <= j < i ==> gates[j] == GateOf(checks, violations, FRAMEWORKS[j])
      invariant evaluated == AnyEvaluated(checks, i) && allPass == AllEvaluatedPass(checks, i)
    {
      var gate := GateOf(checks, violations, FRAMEWORKS[i]);
      ScoresCounted(checks, FRAMEWORKS[i]);
      gates := gates + [gate];
      if gate.metricsChecked > 0 {
        evaluated := true;
        allPass := allPass && gate.pass;
      }
    }
    overallPass := evaluated && allPass;
    EvaluatedIff(specs, offline, results);
    OverallPassIff(specs, offline, results);
  }

  // ----- what the gate says

  lemma {:induction false} CountedIff(checks: seq<Check>, framework: string)
    ensures CountFor(checks, framework) > 0 <==> exists c :: c in checks && c.framework == framework
  {
    if checks != [] {
      CountedIff(checks[..|checks| - 1], framework);
      assert forall c :: c in checks <==> c in checks[..|checks| - 1] || c == checks[|checks| - 1];
    }
  }

  lemma {:induction false} ViolationsAre(checks: seq<Check>)
    ensures forall c :: c in Violations(checks) <==> c in checks && Misses(c)
    ensures Violations(checks) == [] <==> forall c :: c in checks ==> !Misses(c)
  {
    if checks != [] {
      ViolationsAre(checks[..|checks| - 1]);
      assert forall c :: c in checks <==> c in checks[..|checks| - 1] || c == checks[|checks| - 1];
    }
  }

  lemma {:induction false} TaskChecksKnow(
    specs: seq<Spec>, offline: bool, framework: string, task: string, entries: seq<Entry>)
    ensures forall c :: c in CheckTask(specs, offline, framework, task, entries) ==> c.framework == framework
  {
    hide Key, SpecFor;
    if entries != [] { TaskChecksKnow(specs, offline, framework, task, entries[..|entries| - 1]); }
  }

  lemma {:induction false} FrameworkChecksKnow(
    specs: seq<Spec>, offline: bool, framework: string, tasks: seq<TaskResult>)
    ensures forall c :: c in CheckFramework(specs, offline, framework, tasks) ==> c.framework == framework
  {
    hide CheckTask;
    if tasks != [] {
      FrameworkChecksKnow(specs, offline, framework, tasks[..|tasks| - 1]);
      var last := tasks[|tasks| - 1];
      if last.Metrics? { TaskChecksKnow(specs, offline, framework, last.task, last.entries); }
    }
  }

  lemma {:induction false} ChecksAreKnown(specs: seq<Spec>, offline: bool, results: seq<FrameworkResult>)
    ensures forall c :: c in Checks(specs, offline, results) ==> c.framework in FRAMEWORKS
  {
    hide FRAMEWORKS, CheckFramework;
    if results != [] {
      ChecksAreKnown(specs, offline, results[..|results| - 1]);
      FrameworkChecksKnow(specs, offline, results[|results| - 1].framework, results[|results| - 1].tasks);
    }
  }

  /** Evaluating framework by framework is the same as looking at all checks at once. */
  lemma EvaluatedIff(specs: seq<Spec>, offline: bool, results: seq<FrameworkResult>)
    ensures
      var checks := Checks(specs, offline, results);
      && (AnyEvaluated(checks, |FRAMEWORKS|) <==> checks != [])
      && (AllEvaluatedPass(checks, |FRAMEWORKS|) <==> Violations(checks) == [])
  {
    hide FRAMEWORKS, CountFor, Misses, Checks;
    var checks := Checks(specs, offline, results);
    ChecksAreKnown(specs, offline, results);
    ViolationsAre(checks);
    forall framework
      ensures CountFor(checks, framework) > 0 <==> exists c :: c in checks && c.framework == framework
      ensures CountFor(Violations(checks), framework) > 0 <==>
              exists c :: c in Violations(checks) && c.framework == framework
    {
      CountedIff(checks, framework);
      CountedIff(Violations(checks), framework);
    }
    if checks != [] {
      assert checks[0] in checks;
      var i :| 0 <= i < |FRAMEWORKS| && FRAMEWORKS[i] == checks[0].framework;
    }
    if Violations(checks) != [] {
      var v := Violations(checks)[0];
      assert v in Violations(checks);
      var i :| 0 <= i < |FRAMEWORKS| && FRAMEWORKS[i] == v.framework;
      assert CountFor(checks, FRAMEWORKS[i]) > 0 && CountFor(Violations(checks), FRAMEWORKS[i]) > 0;
    }
  }

  // ----- which values are checked, and against what

  /** A number that task t of a known framework r reports. */
  ghost predicate Measures(r: FrameworkResult, t: TaskResult, e: Entry) {
    r.framework in FRAMEWORKS && t in r.tasks && t.Metrics? && e in t.entries && e.avg.Some?
  }

  /** The target of the last spec with the key. */
  ghost predicate HeldTo(specs: seq<Spec>, offline: bool, framework: string, metric: string, target: real) {
    exists i :: IsLast(specs, Key(framework, metric), i) && TargetOf(specs[i], offline, target)
  }

  /** Offline, a spec that declares an offline target is held to it; otherwise the target counts. */
  ghost predicate TargetOf(spec: Spec, offline: bool, target: real) {
    if offline && spec.offlineTarget.Some? then spec.offlineTarget == Some(target) else target == spec.target
  }

  lemma HeldToIff(specs: seq<Spec>, offline: bool, framework: string, metric: string, target: real)
    ensures HeldTo(specs, offline, framework, metric, target) <==>
            var spec := SpecFor(specs, Key(framework, metric));
            spec.Some? && target == spec.value.SlaTarget(offline)
  {
    hide Key, SpecFor;
    SpecForIsLast(specs, Key(framework, metric));
    var key := Key(framework, metric);
    assert forall i, j :: IsLast(specs, key, i) && IsLast(specs, key, j) ==> i == j;
  }

  ghost predicate Reports(e: Entry, c: Check) {
    e.metric == c.metric && e.avg == Some(c.avg)
  }

  lemma EntryCheckedIff(specs: seq<Spec>, offline: bool, framework: string, task: string, e: Entry, c: Check)
    ensures c in CheckEntry(specs, offline, framework, task, e) <==>
            && c.framework == framework && c.task == task
            && HeldTo(specs, offline, framework, c.metric, c.target)
            && Reports(e, c)
  {
    hide HeldTo, Key, SpecFor;
    HeldToIff(specs, offline, framework, e.metric, c.target);
    var checks := CheckEntry(specs, offline, framework, task, e);
    if checks != [] { assert checks[0] in checks; }
  }

  lemma {:induction false} TaskCheckedIff(
    specs: seq<Spec>, offline: bool, framework: string, task: string, entries: seq<Entry>, c: Check)
    ensures c in CheckTask(specs, offline, framework, task, entries) <==>
            && c.framework == framework && c.task == task
            && HeldTo(specs, offline, framework, c.metric, c.target)
            && exists e :: e in entries && Reports(e, c)
  {
    hide HeldTo, CheckEntry, Reports;
    if entries != [] {
      var init, last := entries[..|entries| - 1], entries[|entries| - 1];
      TaskCheckedIff(specs, offline, framework, task, init, c);
      EntryCheckedIff(specs, offline, framework, task, last, c);
      assert forall e :: e in entries <==> e in init || e == last;
    }
  }

  lemma {:induction false} FrameworkCheckedIff(
    specs: seq<Spec>, offline: bool, framework: string, tasks: seq<TaskResult>, c: Check)
    ensures c in CheckFramework(specs, offline, framework, tasks) <==>
            && c.framework == framework
            && HeldTo(specs, offline, framework, c.metric, c.target)
            && exists t, e :: t in tasks && t.Metrics? && t.task == c.task && e in t.entries && Reports(e, c)
  {
    hide HeldTo, CheckTask, Reports;
    if tasks != [] {
      var init, last := tasks[..|tasks| - 1], tasks[|tasks| - 1];
      FrameworkCheckedIff(specs, offline, framework, init, c);
      if last.Metrics? { TaskCheckedIff(specs, offline, framework, last.task, last.entries, c); }
      assert forall t :: t in tasks <==> t in init || t == last;
    }
  }

  ghost predicate ReportedIn(results: seq<FrameworkResult>, c: Check) {
    exists r, t, e ::
      r in results && Measures(r, t, e) && r.framework == c.framework && t.task == c.task && Reports(e, c)
  }

  /**
   A value is checked exactly when a known framework's result has a dictionary task with that
   number and its key has a spec; its target is that of the last such spec.
   */
  lemma {:induction false} CheckedIff(specs: seq<Spec>, offline: bool, results: seq<FrameworkResult>, c: Check)
    ensures c in Checks(specs, offline, results) <==>
            ReportedIn(results, c) && HeldTo(specs, offline, c.framework, c.metric, c.target)
  {
    hide HeldTo, CheckFramework, Reports, FRAMEWORKS;
    if results != [] {
      var init, last := results[..|results| - 1], results[|results| - 1];
      CheckedIff(specs, offline, init, c);
      FrameworkCheckedIff(specs, offline, last.framework, last.tasks, c);
      assert forall r :: r in results <==> r in init || r == last;
      ReportedSnoc(results, c);
    }
  }

  lemma ReportedSnoc(results: seq<FrameworkResult>, c: Check)
    requires results != []
    ensures ReportedIn(results, c) <==>
            || ReportedIn(results[..|results| - 1], c)
            || (&& results[|results| - 1].framework in FRAMEWORKS && results[|results| - 1].framework == c.framework
                && exists t, e :: t in results[|results| - 1].tasks && t.Metrics? && t.task == c.task
                     && e in t.entries && Reports(e, c))
  {
    hide FRAMEWORKS;
    var init, last := results[..|results| - 1], results[|results| - 1];
    assert forall r :: r in results <==> r in init || r == last;
    if exists t, e :: t in last.tasks && t.Metrics? && t.task == c.task && e in t.entries && Reports(e, c) {
      var t, e :| t in last.tasks && t.Metrics? && t.task == c.task && e in t.entries && Reports(e, c);
      assert last.framework in FRAMEWORKS ==> Measures(last, t, e);
    }
  }

  /** Something is held to a target, and every number held to a target meets it. */
  ghost predicate Passes(specs: seq<Spec>, offline: bool, results: seq<FrameworkResult>) {
    && (exists r, t, e, target ::
          r in results && Measures(r, t, e) && HeldTo(specs, offline, r.framework, e.metric, target))
    && (forall r, t, e, target ::
          r in results && Measures(r, t, e) && HeldTo(specs, offline, r.framework, e.metric, target)
          ==> e.avg.value >= target)
  }

  lemma HeldIsChecked(
    specs: seq<Spec>, offline: bool, results: seq<FrameworkResult>,
    r: FrameworkResult, t: TaskResult, e: Entry, target: real)
    requires r in results && Measures(r, t, e) && HeldTo(specs, offline, r.framework, e.metric, target)
    ensures Check(r.framework, t.task, e.metric, e.avg.value, target) in Checks(specs, offline, results)
  {
    hide Checks, HeldTo, FRAMEWORKS;
    var c := Check(r.framework, t.task, e.metric, e.avg.value, target);
    assert Reports(e, c);
    CheckedIff(specs, offline, results, c);
  }

  lemma CheckIsHeld(specs: seq<Spec>, offline: bool, results: seq<FrameworkResult>, c: Check)
    returns (r: FrameworkResult, t: TaskResult, e: Entry)
    requires c in Checks(specs, offline, results)
    ensures r in results && Measures(r, t, e) && e.avg.value == c.avg
    ensures HeldTo(specs, offline, r.framework, e.metric, c.target)
  {
    hide Checks, HeldTo;
    CheckedIff(specs, offline, results, c);
    r, t, e :| r in results && Measures(r, t, e) && r.framework == c.framework && t.task == c.task && Reports(e, c);
  }

  /** The gate passes exactly when some reported number has a target and all that have one meet it. */
  lemma OverallPassIff(specs: seq<Spec>, offline: bool, results: seq<FrameworkResult>)
    ensures
      var checks := Checks(specs, offline, results);
      (checks != [] && Violations(checks) == []) <==> Passes(specs, offline, results)
  {
    hide Checks, Violations, HeldTo;
    var checks := Checks(specs, offline, results);
    ViolationsAre(checks);
    if checks != [] && Violations(checks) == [] {
      assert checks[0] in checks;
      var _, _, _ := CheckIsHeld(specs, offline, results, checks[0]);
      forall r, t, e, target
        | r in results && Measures(r, t, e) && HeldTo(specs, offline, r.framework, e.metric, target)
        ensures e.avg.value >= target
      {
        HeldIsChecked(specs, offline, results, r, t, e, target);
      }
    }
    if Passes(specs, offline, results) {
      var r, t, e, target :|
        r in results && Measures(r, t, e) && HeldTo(specs, offline, r.framework, e.metric, target);
      HeldIsChecked(specs, offline, results, r, t, e, target);
      forall c | c in checks ensures !Misses(c) {
        var _, _, _ := CheckIsHeld(specs, offline, results, c);
      }
    }
  }

  // ----- a task is not always held to its own target

  /** Some later spec of the key sets another target, and no spec after it sets the own one again. */
  ghost predicate Overruled(specs: seq<Spec>, offline: bool, i: nat)
    requires i < |specs|
  {
    var key, own := Key(specs[i].framework, specs[i].metric), specs[i].SlaTarget(offline);
    exists j :: i < j < |specs| && Carries(specs, key, j) && specs[j].SlaTarget(offline) != own
      && forall k :: j < k < |specs| && Carries(specs, key, k) ==> specs[k].SlaTarget(offline) != own
  }

  /**
   The values of a task's metric are held to the target the task declares exactly when its spec is
   not overruled by a later one with the same key.
   */
  lemma HeldToOwnIff(specs: seq<Spec>, offline: bool, i: nat)
    requires i < |specs|
    ensures HeldTo(specs, offline, specs[i].framework, specs[i].metric, specs[i].SlaTarget(offline))
            <==> !Overruled(specs, offline, i)
  {
    hide Key, SpecFor;
    var key, own := Key(specs[i].framework, specs[i].metric), specs[i].SlaTarget(offline);
    SpecForIsLast(specs, key);
    assert Carries(specs, key, i);
    var last :| IsLast(specs, key, last);
    assert last >= i && Carries(specs, key, last);
    assert forall l :: IsLast(specs, key, l) ==> l == last;
    if specs[last].SlaTarget(offline) != own {
      assert forall k :: last < k < |specs| ==> !Carries(specs, key, k);
    }
  }

  /** So for a checked value of a task that declares its metric. */
  lemma CheckedAgainstOwnIff(specs: seq<Spec>, offline: bool, results: seq<FrameworkResult>, c: Check, i: nat)
    requires c in Checks(specs, offline, results) && i < |specs|
    requires c.task == specs[i].task && c.framework == specs[i].framework && c.metric == specs[i].metric
    ensures c.target == specs[i].SlaTarget(offline) <==> !Overruled(specs, offline, i)
  {
    hide Overruled, Checks, SpecFor, HeldTo, Key;
    CheckedIff(specs, offline, results, c);
    HeldToOwnIff(specs, offline, i);
    HeldToIff(specs, offline, c.framework, c.metric, c.target);
    HeldToIff(specs, offline, c.framework, c.metric, specs[i].SlaTarget(offline));
  }

  /** Every task of a matrix is held to its own targets exactly when specs with the same key agree. */
  lemma AllHeldToOwnIff(specs: seq<Spec>, offline: bool)
    ensures
      (forall i :: 0 <= i < |specs| ==>
         HeldTo(specs, offline, specs[i].framework, specs[i].metric, specs[i].SlaTarget(offline)))
      <==>
      (forall i, j :: 0 <= i < |specs| && Carries(specs, Key(specs[i].framework, specs[i].metric), j) ==>
         specs[i].SlaTarget(offline) == specs[j].SlaTarget(offline))
  {
    hide Key, SpecFor, HeldTo;
    forall i | 0 <= i < |specs|
      ensures
        var key := Key(specs[i].framework, specs[i].metric);
        exists last :: IsLast(specs, key, last)
          && (HeldTo(specs, offline, specs[i].framework, specs[i].metric, specs[i].SlaTarget(offline))
              <==> specs[i].SlaTarget(offline) == specs[last].SlaTarget(offline))
    {
      var key := Key(specs[i].framework, specs[i].metric);
      SpecForIsLast(specs, key);
      HeldToIff(specs, offline, specs[i].framework, specs[i].metric, specs[i].SlaTarget(offline));
      assert Carries(specs, key, i);
    }
    assert forall key, k, l :: IsLast(specs, key, k) && IsLast(specs, key, l) ==> k == l;
  }

  function OfKey(specs: seq<Spec>, key: string): seq<Spec> {
    if specs == [] then []
    else
      var last := specs[|specs| - 1];
      OfKey(specs[..|specs| - 1], key) + if Key(last.framework, last.metric) == key then [last] else []
  }

  lemma {:induction false} SpecForNeedsOnlyKey(specs: seq<Spec>, key: string)
    ensures
      var mine := OfKey(specs, key);
      SpecFor(specs, key) == if mine == [] then None else Some(mine[|mine| - 1])
  {
    hide Key;
    if specs != [] { SpecForNeedsOnlyKey(specs[..|specs| - 1], key); }
  }

  /** The three tasks of the shipped matrix that declare this metric. */
  const PYTHON_ASSERTS: seq<Spec> := [
    Spec("reconciliation", "promptfoo", "python_assert", 1.0, None),
    Spec("rating_accuracy", "promptfoo", "python_assert", 0.9, None),
    Spec("ml_fraud_detection", "promptfoo", "python_assert", 0.7, None)]

  /** The result of one task with one number. */
  function OneResult(framework: string, task: string, e: Entry): seq<FrameworkResult> {
    [FrameworkResult(framework, [Metrics(task, [e])])]
  }

  lemma OneResultChecks(specs: seq<Spec>, offline: bool, framework: string, task: string, e: Entry)
    requires framework in FRAMEWORKS
    ensures Checks(specs, offline, OneResult(framework, task, e)) == CheckEntry(specs, offline, framework, task, e)
  {
    hide FRAMEWORKS, CheckEntry;
    var tasks, results := [Metrics(task, [e])], OneResult(framework, task, e);
    assert [e][..0] == [] && tasks[..0] == [] && results[..0] == [];
    assert CheckTask(specs, offline, framework, task, [e]) == [] + CheckEntry(specs, offline, framework, task, e);
    assert CheckFramework(specs, offline, framework, tasks) == [] + CheckTask(specs, offline, framework, task, [e]);
    assert Checks(specs, offline, results) == [] + CheckFramework(specs, offline, framework, tasks);
  }

  lemma PromptfooIsKnown()
    ensures "promptfoo" in FRAMEWORKS
  {
    assert FRAMEWORKS[2] == "promptfoo";
  }

  lemma LastPythonAssert()
    ensures |PYTHON_ASSERTS| == 3 && PYTHON_ASSERTS[2].target == 0.7 && PYTHON_ASSERTS[2].offlineTarget == None
    ensures PYTHON_ASSERTS[0].target == 1.0
  {
  }

  /** Within these three declarations, the first one is overruled. */
  lemma ReconciliationIsOverruled(offline: bool)
    ensures Overruled(PYTHON_ASSERTS, offline, 0)
  {
    var specs, key := PYTHON_ASSERTS, Key("promptfoo", "python_assert");
    assert |specs| == 3 && specs[2].SlaTarget(offline) == 0.7 && specs[0].SlaTarget(offline) == 1.0;
    assert Carries(specs, key, 2) && Key(specs[0].framework, specs[0].metric) == key;
  }

  /**
   In any matrix with these three declarations, a reconciliation value of 0.75 is checked against
   0.70 and passes, although its own task demands 1.0.
   */
  lemma ReconciliationSlips(specs: seq<Spec>, offline: bool)
    requires OfKey(specs, Key("promptfoo", "python_assert")) == PYTHON_ASSERTS
    ensures Checks(specs, offline, OneResult("promptfoo", "reconciliation", Entry("python_assert", Some(0.75)))) ==
            [Check("promptfoo", "reconciliation", "python_assert", 0.75, 0.7)]
    ensures Passes(specs, offline, OneResult("promptfoo", "reconciliation", Entry("python_assert", Some(0.75))))
  {
    hide Key, Passes, OfKey, SpecFor, FRAMEWORKS, PYTHON_ASSERTS, OneResult, Checks;
    var e := Entry("python_assert", Some(0.75));
    SpecForNeedsOnlyKey(specs, Key("promptfoo", "python_assert"));
    LastPythonAssert();
    PromptfooIsKnown();
    OneResultChecks(specs, offline, "promptfoo", "reconciliation", e);
    var c := Check("promptfoo", "reconciliation", "python_assert", 0.75, 0.7);
    assert CheckEntry(specs, offline, "promptfoo", "reconciliation", e) == [c];
    ViolationsAre([c]);
    OverallPassIff(specs, offline, OneResult("promptfoo", "reconciliation", e));
  }

  // ----- offline is no stricter

  ghost predicate OfflineNoStricter(specs: seq<Spec>) {
    forall i :: 0 <= i < |specs| && specs[i].offlineTarget.Some? ==> specs[i].offlineTarget.value <= specs[i].target
  }

  /** The same value held against an equal or lower target. */
  ghost predicate Relaxes(off: Check, on: Check) {
    off.target <= on.target && off == on.(target := off.target)
  }

  ghost predicate AllRelax(off: seq<Check>, on: seq<Check>) {
    |off| == |on| && forall i :: 0 <= i < |off| ==> Relaxes(off[i], on[i])
  }

  lemma EntryRelaxes(specs: seq<Spec>, framework: string, task: string, e: Entry)
    requires OfflineNoStricter(specs)
    ensures AllRelax(CheckEntry(specs, true, framework, task, e), CheckEntry(specs, false, framework, task, e))
  {
    hide Key, SpecFor;
    SpecForIsLast(specs, Key(framework, e.metric));
  }

  lemma {:induction false} TaskRelaxes(specs: seq<Spec>, framework: string, task: string, entries: seq<Entry>)
    requires OfflineNoStricter(specs)
    ensures AllRelax(CheckTask(specs, true, framework, task, entries),
                     CheckTask(specs, false, framework, task, entries))
  {
    hide OfflineNoStricter, CheckEntry, Relaxes;
    if entries != [] {
      TaskRelaxes(specs, framework, task, entries[..|entries| - 1]);
      EntryRelaxes(specs, framework, task, entries[|entries| - 1]);
    }
  }

  lemma {:induction false} FrameworkRelaxes(specs: seq<Spec>, framework: string, tasks: seq<TaskResult>)
    requires OfflineNoStricter(specs)
    ensures AllRelax(CheckFramework(specs, true, framework, tasks), CheckFramework(specs, false, framework, tasks))
  {
    hide OfflineNoStricter, CheckTask, Relaxes;
    if tasks != [] {
      FrameworkRelaxes(specs, framework, tasks[..|tasks| - 1]);
      var last := tasks[|tasks| - 1];
      if last.Metrics? { TaskRelaxes(specs, framework, last.task, last.entries); }
    }
  }

  lemma {:induction false} ChecksRelax(specs: seq<Spec>, results: seq<FrameworkResult>)
    requires OfflineNoStricter(specs)
    ensures AllRelax(Checks(specs, true, results), Checks(specs, false, results))
  {
    hide OfflineNoStricter, CheckFramework, Relaxes, FRAMEWORKS;
    if results != [] {
      ChecksRelax(specs, results[..|results| - 1]);
      FrameworkRelaxes(specs, results[|results| - 1].framework, results[|results| - 1].tasks);
    }
  }

  /**
   When no offline target is stricter than its target, every offline violation is an online
   violation of the same value, and an online pass is an offline pass.
   */
  lemma OfflineSubsumed(specs: seq<Spec>, results: seq<FrameworkResult>)
    requires OfflineNoStricter(specs)
    ensures
      var off, on := Checks(specs, true, results), Checks(specs, false, results);
      && (forall v :: v in Violations(off) ==> exists w :: w in Violations(on) && Relaxes(v, w))
      && (on != [] && Violations(on) == [] ==> off != [] && Violations(off) == [])
  {
    hide OfflineNoStricter, Checks, Violations;
    var off, on := Checks(specs, true, results), Checks(specs, false, results);
    ChecksRelax(specs, results);
    ViolationsAre(off);
    ViolationsAre(on);
    forall v | v in Violations(off) ensures exists w :: w in Violations(on) && Relaxes(v, w) {
      var i :| 0 <= i < |off| && off[i] == v;
      assert on[i] in on && Misses(on[i]) && Relaxes(v, on[i]);
    }
  }
}
