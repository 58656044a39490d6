/**
 What one operation on the experiment log does, as functions on its rows.  The log file is a
 sequence of rows; identifiers are supplied by the caller and timestamps are dropped.
 */
module ExperimentLog {
  import opened Strings
  import opened Wrappers

  datatype Row = Row(
    runId: string,
    name: string,
    experimentClass: string,
    hypothesis: string,
    stage: string,
    params: map<string, string>,
    metrics: map<string, real>,
    tags: map<string, string>,
    registryEntryId: string,
    status: string)

  datatype Op =
    | Start(runId: string, name: string, experimentClass: string, hypothesis: string,
            params: map<string, string>, tags: map<string, string>, stage: string, registryEntryId: string)
    | Log(runId: string, metrics: map<string, real>)
    | Promote(runId: string, stage: string)

  /** An enum value that does not exist raises; an id outside the window returns nothing. */
  datatype Outcome = Invalid | Missing | Done(row: Row)

  const WINDOW := 500

  const CLASSES: set<string> :=
    {"prompt", "llm_config", "rag", "agent_logic", "tooling", "eval_baseline", "regression", "canary", "compliance"}

  const PRODUCTION := "production"

  const REJECTED := "rejected"

  const STAGES: set<string> :=
    {"draft", "offline_eval", "hitl_review", "registry_review", "shadow", "canary", "champion", PRODUCTION,
     "archived", REJECTED}

  /** The last `limit` rows as Python slices them: zero keeps everything, a negative limit drops from the front. */
  function Tail<T>(rows: seq<T>, limit: int): seq<T> {
    if limit == 0 then rows
    else if limit > 0 then (if limit < |rows| then rows[|rows| - limit..] else rows)
    else if -limit < |rows| then rows[-limit..] else []
  }

  /** A positive limit keeps that many rows at the end, a negative one leaves out that many at the front. */
  lemma TailIs<T>(rows: seq<T>, limit: int)
    ensures
      var r := Tail(rows, limit);
      && |r| <= |rows| && r == rows[|rows| - |r|..]
      && (limit > 0 ==> |r| == limit || (|r| == |rows| && |rows| < limit))
      && (limit == 0 ==> |r| == |rows|)
      && (limit < 0 ==> |r| == |rows| + limit || (|r| == 0 && |rows| + limit < 0))
  {
  }

  function Window(rows: seq<Row>): seq<Row> {
    Tail(rows, WINDOW)
  }

  /** The rows of one class, in order; no class and the empty class both keep every row. */
  function OfClass(rows: seq<Row>, cls: Option<string>): seq<Row> {
    if rows == [] then [] else (if Skips(rows[0], cls) then [] else [rows[0]]) + OfClass(rows[1..], cls)
  }

  predicate Skips(row: Row, cls: Option<string>) {
    cls.Some? && cls.value != "" && row.experimentClass != cls.value
  }

  lemma {:induction false} OfClassSnoc(rows: seq<Row>, cls: Option<string>, i: nat)
    requires i < |rows|
    ensures OfClass(rows[..i + 1], cls) == OfClass(rows[..i], cls) + if Skips(rows[i], cls) then [] else [rows[i]]
  {
    hide Skips;
    if i > 0 {
      OfClassSnoc(rows[1..], cls, i - 1);
      assert rows[..i + 1][1..] == rows[1..][..i] && rows[..i][1..] == rows[1..][..i - 1];
    }
  }

  /** Filtering keeps the order, and a row exactly when no class is asked for or it is of that class. */
  lemma OfClassOne(row: Row, cls: Option<string>)
    ensures OfClass([row], cls) ==
            if cls == None || cls == Some("") || cls == Some(row.experimentClass) then [row] else []
  {
    assert [row][1..] == [] && OfClass([], cls) == [];
  }

  lemma OfClassStep(row: Row, rows: seq<Row>, cls: Option<string>)
    ensures OfClass([row] + rows, cls) == (if Skips(row, cls) then [] else [row]) + OfClass(rows, cls)
  {
    hide Skips;
    assert ([row] + rows)[1..] == rows;
  }

  lemma {:induction false} OfClassConcat(a: seq<Row>, b: seq<Row>, cls: Option<string>)
    ensures OfClass(a + b, cls) == OfClass(a, cls) + OfClass(b, cls)
  {
    if a == [] {
      assert a + b == b && OfClass([], cls) == [];
    } else {
      OfClassStep(a[0], a[1..], cls);
      OfClassStep(a[0], a[1..] + b, cls);
      hide OfClass, Skips;
      OfClassConcat(a[1..], b, cls);
      assert a == [a[0]] + a[1..] && a + b == [a[0]] + (a[1..] + b);
      Assoc(if Skips(a[0], cls) then [] else [a[0]], OfClass(a[1..], cls), OfClass(b, cls));
    }
  }

  /** Position of the first row with this id, or the length. */
  function Find(rows: seq<Row>, runId: string): (i: nat)
    ensures i <= |rows|
    ensures i < |rows| ==> rows[i].runId == runId
    ensures forall j :: 0 <= j < i ==> rows[j].runId != runId
  {
    if rows == [] || rows[0].runId == runId then 0 else 1 + Find(rows[1..], runId)
  }

  /** A row keeps everything but its metrics, stage, tags and status. */
  predicate SameIdentity(a: Row, b: Row) {
    && a.runId == b.runId
    && a.name == b.name
    && a.experimentClass == b.experimentClass
    && a.hypothesis == b.hypothesis
    && a.params == b.params
    && a.registryEntryId == b.registryEntryId
  }

  function InitialTags(op: Op): map<string, string>
    requires op.Start?
  {
    map["experiment_class" := op.experimentClass, "stage" := op.stage] + op.tags
  }

  function InitialRow(op: Op): (r: Row)
    requires op.Start?
    ensures r.runId == op.runId
  {
    Row(op.runId, op.name, op.experimentClass, op.hypothesis, op.stage, op.params, map[], InitialTags(op),
        op.registryEntryId, "running")
  }

  /** What a row records of the call that started it, for good. */
  ghost predicate StartedBy(row: Row, op: Op)
    requires op.Start?
  {
    && row.runId == op.runId
    && row.name == op.name
    && row.experimentClass == op.experimentClass
    && row.hypothesis == op.hypothesis
    && row.params == op.params
    && row.registryEntryId == op.registryEntryId
  }

  function TagOf(row: Row, key: string): Option<string> {
    if key in row.tags then Some(row.tags[key]) else None
  }

  /** The tags a start gives: the caller's own, and class and stage where the caller gave none. */
  function StartTag(op: Op, key: string): Option<string>
    requires op.Start?
  {
    if key in op.tags then Some(op.tags[key])
    else if key == "experiment_class" then Some(op.experimentClass)
    else if key == "stage" then Some(op.stage)
    else None
  }

  /** A row as a start leaves it, field by field. */
  ghost predicate FreshFrom(row: Row, op: Op)
    requires op.Start?
  {
    && StartedBy(row, op)
    && row.stage == op.stage
    && row.metrics == map[]
    && row.status == "running"
    && forall key :: TagOf(row, key) == StartTag(op, key)
  }

  lemma InitialRowIsFresh(op: Op)
    requires op.Start?
    ensures FreshFrom(InitialRow(op), op)
  {
    var row := InitialRow(op);
    forall key ensures TagOf(row, key) == StartTag(op, key) { InitialTag(op, key); }
  }

  lemma InitialTag(op: Op, key: string)
    requires op.Start?
    ensures TagOf(InitialRow(op), key) == StartTag(op, key)
  {
    assert "experiment_class"[0] != "stage"[0];
  }

  /** What an update changes in the row it targets, field by field, and that it changes nothing else. */
  ghost predicate Updated(before: Row, after: Row, op: Op)
    requires !op.Start?
  {
    SameIdentity(before, after) &&
    match op
    case Log(_, metrics) =>
      && after.stage == before.stage && after.tags == before.tags && after.status == before.status
      && (forall k :: k in after.metrics <==> k in before.metrics || k in metrics)
      && (forall k :: k in after.metrics ==>
            after.metrics[k] == if k in metrics then metrics[k] else before.metrics[k])
    case Promote(_, stage) =>
      && after.metrics == before.metrics && after.stage == stage
      && (forall key :: TagOf(after, key) == if key == "stage" then Some(stage) else TagOf(before, key))
      && after.status == (if stage == "production" then "completed"
                          else if stage == "rejected" then "rejected" else before.status)
  }

  lemma ChangeUpdates(row: Row, op: Op)
    requires !op.Start?
    ensures Updated(row, Change(row, op), op)
  {
  }

  /** How `log_metrics` and `promote` change the row they target. */
  function Change(row: Row, op: Op): (r: Row)
    requires !op.Start?
    ensures SameIdentity(row, r)
  {
    match op
    case Log(_, metrics) => row.(metrics := row.metrics + metrics)
    case Promote(_, stage) =>
      row.(stage := stage,
           tags := row.tags["stage" := stage],
           status := if stage == PRODUCTION then "completed" else if stage == REJECTED then "rejected" else row.status)
  }

  predicate ValidOp(op: Op) {
    match op
    case Start(_, _, experimentClass, _, _, _, stage, _) => experimentClass in CLASSES && stage in STAGES
    case Log(_, _) => true
    case Promote(_, stage) => stage in STAGES
  }

  /** Whether the operation takes effect on this log. */
  predicate Accepts(rows: seq<Row>, op: Op) {
    ValidOp(op) && (op.Start? || Find(Window(rows), op.runId) < |Window(rows)|)
  }

  function Step(rows: seq<Row>, op: Op): seq<Row> {
    if !Accepts(rows, op) then rows
    else if op.Start? then rows + [InitialRow(op)]
    else
      var w := Window(rows);
      var i := Find(w, op.runId);
      w[i := Change(w[i], op)]
  }

  function Result(rows: seq<Row>, op: Op): Outcome {
    if !ValidOp(op) then Invalid
    else if op.Start? then Done(InitialRow(op))
    else if !Accepts(rows, op) then Missing
    else Done(Change(Window(rows)[Find(Window(rows), op.runId)], op))
  }

  function Run(ops: seq<Op>): seq<Row> {
    if ops == [] then [] else Step(Run(ops[..|ops| - 1]), ops[|ops| - 1])
  }

  /** The operations of a run that took effect, in order. */
  function Effective(ops: seq<Op>): seq<Op> {
    if ops == [] then []
    else
      var init, last := ops[..|ops| - 1], ops[|ops| - 1];
      Effective(init) + if Accepts(Run(init), last) then [last] else []
  }

  /** The ids of the runs started, in creation order. */
  function Created(ops: seq<Op>): seq<string> {
    if ops == [] then []
    else
      var last := ops[|ops| - 1];
      Created(ops[..|ops| - 1]) + if last.Start? && ValidOp(last) then [last.runId] else []
  }

  function Ids(rows: seq<Row>): seq<string> {
    seq(|rows|, i requires 0 <= i < |rows| => rows[i].runId)
  }

  // ----- one operation

  /**
   An update that takes effect leaves the last 500 rows, touches exactly the first row with the
   target id there, and only its mutable fields; one that does not leaves the log as it was.
   */
  lemma UpdateTouchesOneRow(rows: seq<Row>, op: Op)
    requires !op.Start?
    ensures
      var w, after := Window(rows), Step(rows, op);
      if ValidOp(op) && exists i :: 0 <= i < |w| && w[i].runId == op.runId then
        exists i :: 0 <= i < |w| && w[i].runId == op.runId && (forall j :: 0 <= j < i ==> w[j].runId != op.runId)
          && |after| == |w| && Updated(w[i], after[i], op) && Result(rows, op) == Done(after[i])
          && forall j :: 0 <= j < |w| && j != i ==> after[j] == w[j]
      else after == rows && (Result(rows, op).Invalid? || Result(rows, op).Missing?)
  {
    hide ValidOp, Change, Updated, Window;
    var w := Window(rows);
    var i := Find(w, op.runId);
    if ValidOp(op) && i < |w| {
      assert w[i].runId == op.runId;
      ChangeUpdates(w[i], op);
      assert Updated(w[i], Step(rows, op)[i], op);
    }
  }

  /** A start takes effect exactly on a known class and stage, and then appends one fresh row. */
  lemma StartAppendsFreshRow(rows: seq<Row>, op: Op)
    requires op.Start?
    ensures Result(rows, op).Done? <==> op.experimentClass in CLASSES && op.stage in STAGES
    ensures
      match Result(rows, op)
      case Done(row) => FreshFrom(row, op) && Step(rows, op) == rows + [row]
      case _ => Step(rows, op) == rows
  {
    hide CLASSES, STAGES, FreshFrom;
    InitialRowIsFresh(op);
  }

  /** An operation loses rows exactly when it is an effective update on a log longer than the window. */
  lemma LosesRowsIff(rows: seq<Row>, op: Op)
    ensures |Step(rows, op)| < |rows| <==> !op.Start? && Accepts(rows, op) && |rows| > 500
    ensures |Step(rows, op)| < |rows| ==> |Step(rows, op)| == 500
  {
    hide ValidOp, Change, InitialRow;
  }

  // ----- whole runs

  /** The log always holds a suffix of the runs created, in creation order. */
  lemma {:induction false} HoldsSuffixOfCreated(ops: seq<Op>)
    ensures IsSuffix(Ids(Run(ops)), Created(ops))
  {
    if ops != [] {
      hide ValidOp, Step, Find, Window, IsSuffix, Ids, Tail;
      var init, op := ops[..|ops| - 1], ops[|ops| - 1];
      HoldsSuffixOfCreated(init);
      StepIds(Run(init), op);
      SuffixStays(Ids(Run(init)), Created(init), op.runId);
      assert Created(init) + [] == Created(init);
    }
  }

  predicate IsSuffix(s: seq<string>, all: seq<string>) {
    |s| <= |all| && s == all[|all| - |s|..]
  }

  lemma SuffixStays(s: seq<string>, all: seq<string>, id: string)
    requires IsSuffix(s, all)
    ensures IsSuffix(s + [id], all + [id]) && IsSuffix(Tail(s, WINDOW), all)
  {
  }

  lemma StepIds(rows: seq<Row>, op: Op)
    ensures !Accepts(rows, op) ==> Ids(Step(rows, op)) == Ids(rows)
    ensures Accepts(rows, op) && op.Start? ==> Ids(Step(rows, op)) == Ids(rows) + [op.runId]
    ensures Accepts(rows, op) && !op.Start? ==> Ids(Step(rows, op)) == Tail(Ids(rows), WINDOW)
  {
    hide ValidOp, PRODUCTION, REJECTED, InitialTags;
  }

  /** Fresh ids stay distinct. */
  lemma IdsStayDistinct(ops: seq<Op>)
    requires Distinct(Created(ops))
    ensures Distinct(Ids(Run(ops)))
  {
    hide Run, Created;
    HoldsSuffixOfCreated(ops);
    var ids, created := Ids(Run(ops)), Created(ops);
    forall i, j | 0 <= i < j < |ids| ensures ids[i] != ids[j] {
      var d := |created| - |ids|;
      assert ids[i] == created[d + i] && ids[j] == created[d + j];
    }
  }

  /** Some update took effect while the log was longer than the window. */
  predicate Overflowed(ops: seq<Op>) {
    ops != [] &&
    var init, op := ops[..|ops| - 1], ops[|ops| - 1];
    Overflowed(init) || (!op.Start? && Accepts(Run(init), op) && |Run(init)| > WINDOW)
  }

  /** Every run ever created is still in the log exactly when no effective update met more than 500 rows. */
  lemma {:induction false} NothingLostIff(ops: seq<Op>)
    ensures Ids(Run(ops)) == Created(ops) <==> !Overflowed(ops)
  {
    HoldsSuffixOfCreated(ops);
    if ops != [] {
      hide ValidOp, Step, Find, Window;
      var init, op := ops[..|ops| - 1], ops[|ops| - 1];
      NothingLostIff(init);
      HoldsSuffixOfCreated(init);
      StepIds(Run(init), op);
      assert |Ids(Run(init))| == |Run(init)| && |Ids(Run(ops))| == |Run(ops)|;
    }
  }

  // ----- how it happens

  function Id(i: nat): string {
    seq(i + 1, _ => 'x')
  }

  function FreshStart(i: nat): Op {
    Start(Id(i), "run", "prompt", "", map[], map[], "draft", "")
  }

  function Starts(n: nat): seq<Op> {
    if n == 0 then [] else Starts(n - 1) + [FreshStart(n - 1)]
  }

  lemma FreshStartIsValid(i: nat)
    ensures ValidOp(FreshStart(i))
  {
  }

  /** What one valid start adds to a run. */
  lemma StartAppended(ops: seq<Op>, op: Op)
    requires op.Start? && ValidOp(op)
    ensures Ids(Run(ops + [op])) == Ids(Run(ops)) + [op.runId]
    ensures Created(ops + [op]) == Created(ops) + [op.runId]
    ensures Overflowed(ops + [op]) <==> Overflowed(ops)
  {
    hide ValidOp, Step, Ids, Find, Window;
    assert (ops + [op])[..|ops|] == ops;
    StepIds(Run(ops), op);
  }

  function FirstIds(n: nat): seq<string> {
    seq(n, i requires 0 <= i < n => Id(i))
  }

  lemma FirstIdsSnoc(n: nat)
    ensures FirstIds(n) + [Id(n)] == FirstIds(n + 1)
  {
  }

  lemma {:induction false} StartsAllKept(n: nat)
    ensures Ids(Run(Starts(n))) == Created(Starts(n)) == FirstIds(n)
    ensures !Overflowed(Starts(n))
  {
    if n > 0 {
      hide ValidOp, Id, Run, Created, Overflowed, Ids, FirstIds;
      StartsAllKept(n - 1);
      FreshStartIsValid(n - 1);
      StartAppended(Starts(n - 1), FreshStart(n - 1));
      FirstIdsSnoc(n - 1);
    }
  }

  /** What one effective update does to the ids of a run. */
  lemma UpdateAppended(ops: seq<Op>, op: Op)
    requires !op.Start? && Accepts(Run(ops), op)
    ensures Ids(Run(ops + [op])) == Tail(Ids(Run(ops)), WINDOW)
    ensures Created(ops + [op]) == Created(ops)
    ensures Overflowed(ops + [op]) <==> Overflowed(ops) || |Run(ops)| > WINDOW
  {
    hide Accepts, Step, Ids, Tail;
    assert (ops + [op])[..|ops|] == ops;
    StepIds(Run(ops), op);
    assert Created(ops) + [] == Created(ops);
  }

  /** The newest row of a log is found in its window. */
  lemma NewestIsAccepted(rows: seq<Row>, op: Op)
    requires op.Log? && rows != [] && rows[|rows| - 1].runId == op.runId
    ensures Accepts(rows, op)
  {
    hide Find;
    var w := Window(rows);
    assert w[|w| - 1] == rows[|rows| - 1];
    var _ := Find(w, op.runId);
  }

  lemma FirstIdsDistinct(n: nat)
    ensures Distinct(FirstIds(n))
  {
    hide Id;
    forall i, j | 0 <= i < j < n ensures FirstIds(n)[i] != FirstIds(n)[j] { IdsDiffer(i, j); }
  }

  /** After more than 500 starts, logging nothing at all on the newest run discards all but 500 of them. */
  lemma LoggingLosesRuns(n: nat)
    requires n > 500
    ensures
      var ops := Starts(n) + [Log(Id(n - 1), map[])];
      && Distinct(Created(ops)) && |Created(ops)| == n
      && Overflowed(ops) && |Run(ops)| == 500 && Ids(Run(ops)) == Created(ops)[n - 500..]
  {
    hide Id, Starts, Run, Created, Overflowed, Distinct, Accepts;
    var starts, op := Starts(n), Log(Id(n - 1), map[]);
    StartsAllKept(n);
    FirstIdsDistinct(n);
    var rows := Run(starts);
    assert |Ids(rows)| == |rows| == n && Ids(rows)[n - 1] == Id(n - 1);
    NewestIsAccepted(rows, op);
    UpdateAppended(starts, op);
    assert |Ids(Run(starts + [op]))| == |Run(starts + [op])|;
  }

  lemma IdsDiffer(i: nat, j: nat)
    requires i != j
    ensures Id(i) != Id(j)
  {
    assert |Id(i)| == i + 1 && |Id(j)| == j + 1;
  }
}
