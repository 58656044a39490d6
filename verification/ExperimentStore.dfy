/** `ExperimentStore`: the log file as a mutable field, and the methods that append, rewrite and read it. */
module ExperimentStore {
  import opened Strings
  import opened Wrappers
  import opened ExperimentLog

  class Store {
    /** The rows of `runs.jsonl`; an absent file reads as no rows. */
    var lines: seq<Row>

    constructor ()
      ensures lines == Run([])
    {
      lines := [];
    }

    method StartRun(op: Op) returns (r: Outcome)
      requires op.Start?
      modifies this
      ensures lines == Step(old(lines), op) && r == Result(old(lines), op)
      ensures r.Done? <==> op.experimentClass in CLASSES && op.stage in STAGES
      ensures r.Done? ==> FreshFrom(r.row, op) && lines == old(lines) + [r.row]
      ensures !r.Done? ==> lines == old(lines)
    {
      hide FreshFrom;
      StartAppendsFreshRow(lines, op);
      if op.experimentClass !in CLASSES || op.stage !in STAGES { return Invalid; }
      var tags := map["experiment_class" := op.experimentClass, "stage" := op.stage] + op.tags;
      var row := Row(op.runId, op.name, op.experimentClass, op.hypothesis, op.stage, op.params, map[], tags,
                     op.registryEntryId, "running");
      lines := lines + [row];
      r := Done(row);
    }

    method ListRuns(experimentClass: Option<string>, limit: int) returns (r: seq<Row>)
      ensures r == Tail(OfClass(lines, experimentClass), limit)
    {
      var rows: seq<Row> := [];
      for i := 0 to |lines|
        invariant rows == OfClass(lines[..i], experimentClass)
      {
        OfClassSnoc(lines, experimentClass, i);
        if experimentClass.Some? && experimentClass.value != "" && lines[i].experimentClass != experimentClass.value {
          continue;
        }
        rows := rows + [lines[i]];
      }
      assert lines[..|lines|] == lines;
      r := Tail(rows, limit);
    }

    method Get(runId: string) returns (r: Option<Row>)
      ensures
        var w := Window(lines);
        r == if Find(w, runId) < |w| then Some(w[Find(w, runId)]) else None
    {
      hide STAGES, OfClass;
      var rows := ListRuns(None, WINDOW);
      EveryClass(lines);
      for i := 0 to |rows|
        invariant i <= Find(rows, runId)
      {
        if rows[i].runId == runId { return Some(rows[i]); }
      }
      r := None;
    }

    method Rewrite(rows: seq<Row>)
      modifies this
      ensures lines == rows
    {
      lines := rows;
    }

    method LogMetrics(runId: string, metrics: map<string, real>) returns (r: Outcome)
      modifies this
      ensures lines == Step(old(lines), Log(runId, metrics)) && r == Result(old(lines), Log(runId, metrics))
    {
      hide STAGES, OfClass;
      var rows := ListRuns(None, WINDOW);
      EveryClass(lines);
      for i := 0 to |rows|
        invariant i <= Find(rows, runId)
        invariant rows == Window(lines) && lines == old(lines)
      {
        if rows[i].runId == runId {
          var target := rows[i].(metrics := rows[i].metrics + metrics);
          rows := rows[i := target];
          Rewrite(rows);
          return Done(target);
        }
      }
      r := Missing;
    }

    method PromoteTo(runId: string, stage: string) returns (r: Outcome)
      modifies this
      ensures lines == Step(old(lines), Promote(runId, stage)) && r == Result(old(lines), Promote(runId, stage))
    {
      hide STAGES, OfClass, PRODUCTION, REJECTED;
      VerdictsDiffer();
      if stage !in STAGES { return Invalid; }
      var rows := ListRuns(None, WINDOW);
      EveryClass(lines);
      for i := 0 to |rows|
        invariant i <= Find(rows, runId)
        invariant rows == Window(lines) && lines == old(lines)
      {
        if rows[i].runId == runId {
          var target := rows[i].(stage := stage);
          target := target.(tags := target.tags["stage" := stage]);
          if stage == PRODUCTION {
            target := target.(status := "completed");
          }
          if stage == REJECTED {
            target := target.(status := "rejected");
          }
          rows := rows[i := target];
          Rewrite(rows);
          return Done(target);
        }
      }
      r := Missing;
    }
  }

  lemma VerdictsDiffer()
    ensures PRODUCTION != REJECTED
  {
    assert PRODUCTION[0] != REJECTED[0];
  }

  lemma {:induction false} EveryClass(rows: seq<Row>)
    ensures OfClass(rows, None) == rows
  {
    if rows != [] { EveryClass(rows[1..]); }
  }

  /** Reading a run back right after an operation on it took effect returns the row it reported. */
  lemma ReadsBackWhatItWrote(ops: seq<Op>, op: Op)
    requires Distinct(Created(ops + [op])) && Accepts(Run(ops), op)
    ensures
      var w := Window(Step(Run(ops), op));
      Find(w, op.runId) < |w| && Result(Run(ops), op) == Done(w[Find(w, op.runId)])
  {
    hide ValidOp, Created, Change, InitialRow;
    var all := ops + [op];
    assert all[..|all| - 1] == ops;
    IdsStayDistinct(all);
    var rows, after := Run(ops), Run(all);
    assert after == Step(rows, op);
    var w := Window(after);
    var t := if op.Start? then |w| - 1 else Find(Window(rows), op.runId);
    WindowAt(after, t);
    assert w[t].runId == op.runId && Result(rows, op) == Done(w[t]);
    var f := Find(w, op.runId);
    assert f <= t;
    WindowAt(after, f);
    var d := |after| - |w|;
    assert Ids(after)[d + f] == w[f].runId && Ids(after)[d + t] == w[t].runId;
  }

  lemma WindowAt(rows: seq<Row>, i: nat)
    requires i < |Window(rows)|
    ensures |Window(rows)| <= |rows| && Window(rows)[i] == rows[|rows| - |Window(rows)| + i]
  {
  }
}
