/**
 Every surviving row is what its own history says: the fold of the operations that took effect on
 its id, with a closed form for each mutable field.
 */
module ExperimentHistory {
  import opened Strings
  import opened Wrappers
  import opened ExperimentLog

  /** The operations on one id. */
  function Of(ops: seq<Op>, runId: string): seq<Op> {
    if ops == [] then []
    else
      var last := ops[|ops| - 1];
      Of(ops[..|ops| - 1], runId) + if last.runId == runId then [last] else []
  }

  /** The effective operations on one run. */
  function History(ops: seq<Op>, runId: string): seq<Op> {
    Of(Effective(ops), runId)
  }

  /** One start, then updates only. */
  predicate IsHistory(h: seq<Op>) {
    h != [] && h[0].Start? && forall i :: 1 <= i < |h| ==> !h[i].Start?
  }

  function Replay(h: seq<Op>): Row
    requires IsHistory(h)
  {
    if |h| == 1 then InitialRow(h[0]) else Change(Replay(h[..|h| - 1]), h[|h| - 1])
  }

  // ----- rows replay their history

  lemma {:induction false} EffectiveIdsWereCreated(ops: seq<Op>, runId: string)
    requires runId !in Created(ops)
    ensures History(ops, runId) == []
  {
    if ops != [] {
      hide ValidOp, Step, Find, Window;
      var init, op := ops[..|ops| - 1], ops[|ops| - 1];
      EffectiveIdsWereCreated(init, runId);
      if Accepts(Run(init), op) {
        if !op.Start? { UpdatedIdIsPresent(init, op); }
        assert op.runId != runId;
        assert Effective(ops)[..|Effective(ops)| - 1] == Effective(init);
      } else {
        assert Effective(ops) == Effective(init);
      }
    }
  }

  lemma UpdatedIdIsPresent(ops: seq<Op>, op: Op)
    requires !op.Start? && Accepts(Run(ops), op)
    ensures op.runId in Created(ops)
  {
    hide ValidOp, Run, Created;
    HoldsSuffixOfCreated(ops);
    var rows := Run(ops);
    var w := Window(rows);
    var i := Find(w, op.runId) + |rows| - |w|;
    assert Ids(rows)[i] == op.runId;
    assert Created(ops)[|Created(ops)| - |rows| + i] == op.runId;
  }

  lemma HistorySnoc(ops: seq<Op>, runId: string)
    requires ops != []
    ensures
      var init, op := ops[..|ops| - 1], ops[|ops| - 1];
      History(ops, runId) == History(init, runId) + if Accepts(Run(init), op) && op.runId == runId then [op] else []
  {
    hide Accepts, Run;
    var init, op := ops[..|ops| - 1], ops[|ops| - 1];
    if Accepts(Run(init), op) {
      assert Effective(ops)[..|Effective(ops)| - 1] == Effective(init);
    } else {
      assert Effective(ops) == Effective(init);
    }
  }

  /** Every row of the log, at every point of every run with fresh ids, is the replay of its history. */
  lemma {:induction false} RowsReplayTheirHistory(ops: seq<Op>)
    requires Distinct(Created(ops))
    ensures AllReplay(ops)
  {
    if ops != [] {
      hide Replays, Created, Step;
      var init := ops[..|ops| - 1];
      CreatedPrefix(ops);
      RowsReplayTheirHistory(init);
      forall row | row in Run(ops) ensures Replays(ops, row) {
        var i :| 0 <= i < |Run(ops)| && Run(ops)[i] == row;
        RowReplays(ops, i);
      }
    }
  }

  lemma CreatedPrefix(ops: seq<Op>)
    requires ops != [] && Distinct(Created(ops))
    ensures
      var init, op := ops[..|ops| - 1], ops[|ops| - 1];
      Distinct(Created(init)) && (op.Start? && ValidOp(op) ==> op.runId !in Created(init))
  {
    hide ValidOp;
    var init, op := ops[..|ops| - 1], ops[|ops| - 1];
    var n := |Created(init)|;
    assert Created(ops)[..n] == Created(init);
    forall i, j | 0 <= i < j < n ensures Created(init)[i] != Created(init)[j] {
      assert Created(ops)[i] == Created(init)[i] && Created(ops)[j] == Created(init)[j];
    }
    if op.Start? && ValidOp(op) {
      assert Created(ops)[n] == op.runId;
      forall i | 0 <= i < n ensures Created(init)[i] != op.runId {
        assert Created(ops)[i] == Created(init)[i];
      }
    }
  }

  predicate AllReplay(ops: seq<Op>) {
    forall row :: row in Run(ops) ==> Replays(ops, row)
  }

  /** The claim for one row of a run. */
  predicate Replays(ops: seq<Op>, row: Row) {
    IsHistory(History(ops, row.runId)) && Replay(History(ops, row.runId)) == row
  }

  lemma RowReplays(ops: seq<Op>, i: nat)
    requires ops != [] && Distinct(Created(ops)) && i < |Run(ops)|
    requires AllReplay(ops[..|ops| - 1])
    ensures Replays(ops, Run(ops)[i])
  {
    hide Replays, ValidOp, Step, Find, Created;
    var init, op := ops[..|ops| - 1], ops[|ops| - 1];
    var before, row := Run(init), Run(ops)[i];
    StepShape(before, op);
    if !Accepts(before, op) {
      OthersReplay(ops, row);
    } else if !op.Start? {
      UpdatedRowReplays(ops, i);
    } else if i == |before| {
      NewRowReplays(ops);
    } else {
      CreatedPrefix(ops);
      PresentIdIsCreated(init, i);
      OthersReplay(ops, row);
    }
  }

  lemma UpdatedRowReplays(ops: seq<Op>, i: nat)
    requires ops != [] && Distinct(Created(ops)) && i < |Run(ops)|
    requires AllReplay(ops[..|ops| - 1])
    requires !ops[|ops| - 1].Start? && Accepts(Run(ops[..|ops| - 1]), ops[|ops| - 1])
    ensures Replays(ops, Run(ops)[i])
  {
    hide Replays, Accepts, Step, Find, Created, Window, Change;
    var init, op := ops[..|ops| - 1], ops[|ops| - 1];
    var before := Run(init);
    StepShape(before, op);
    CreatedPrefix(ops);
    IdsStayDistinct(init);
    var w := Window(before);
    var d, t := |before| - |w|, Find(w, op.runId);
    var old' := before[d + i];
    assert w[i] == old' && old' in before;
    if i == t {
      ChangedRowReplays(ops, old');
    } else {
      assert Ids(before)[d + i] == old'.runId && Ids(before)[d + t] == w[t].runId;
      OthersReplay(ops, old');
    }
  }

  /** Which row of the old log each row of the new one comes from. */
  lemma StepShape(rows: seq<Row>, op: Op)
    ensures !Accepts(rows, op) ==> Step(rows, op) == rows
    ensures Accepts(rows, op) && op.Start? ==> Step(rows, op) == rows + [InitialRow(op)]
    ensures
      Accepts(rows, op) && !op.Start? ==>
        var w := Window(rows);
        var t := Find(w, op.runId);
        && |w| <= |rows| && t < |w| && w[t].runId == op.runId && Step(rows, op) == w[t := Change(w[t], op)]
        && forall j :: 0 <= j < |w| ==> w[j] == rows[|rows| - |w| + j]
  {
    hide Change, ValidOp, InitialRow;
  }

  lemma OthersReplay(ops: seq<Op>, row: Row)
    requires ops != [] && Replays(ops[..|ops| - 1], row)
    requires Accepts(Run(ops[..|ops| - 1]), ops[|ops| - 1]) ==> ops[|ops| - 1].runId != row.runId
    ensures Replays(ops, row)
  {
    hide History, Replay, IsHistory, Accepts, Run;
    HistorySnoc(ops, row.runId);
    assert History(ops[..|ops| - 1], row.runId) + [] == History(ops[..|ops| - 1], row.runId);
  }

  lemma NewRowReplays(ops: seq<Op>)
    requires ops != [] && Distinct(Created(ops)) && ops[|ops| - 1].Start?
    requires Accepts(Run(ops[..|ops| - 1]), ops[|ops| - 1])
    ensures Replays(ops, InitialRow(ops[|ops| - 1]))
  {
    hide History, InitialTags, ValidOp, Run, Effective, Created, Find;
    var init, op := ops[..|ops| - 1], ops[|ops| - 1];
    CreatedPrefix(ops);
    HistorySnoc(ops, op.runId);
    EffectiveIdsWereCreated(init, op.runId);
    assert History(ops, op.runId) == [op];
  }

  lemma ChangedRowReplays(ops: seq<Op>, row: Row)
    requires ops != [] && Replays(ops[..|ops| - 1], row)
    requires !ops[|ops| - 1].Start? && ops[|ops| - 1].runId == row.runId
    requires Accepts(Run(ops[..|ops| - 1]), ops[|ops| - 1])
    ensures Replays(ops, Change(row, ops[|ops| - 1]))
  {
    hide History, Accepts, Run, Change;
    var op := ops[|ops| - 1];
    var h := History(ops[..|ops| - 1], row.runId);
    HistorySnoc(ops, row.runId);
    assert History(ops, row.runId) == h + [op];
    assert (h + [op])[..|h|] == h;
  }

  lemma PresentIdIsCreated(ops: seq<Op>, i: nat)
    requires i < |Run(ops)|
    ensures Run(ops)[i].runId in Created(ops)
  {
    hide Run, Created;
    HoldsSuffixOfCreated(ops);
    assert Ids(Run(ops))[i] == Run(ops)[i].runId;
    assert Created(ops)[|Created(ops)| - |Run(ops)| + i] == Run(ops)[i].runId;
  }

  // ----- closed forms for the mutable fields

  /** The value most recently logged under a key. */
  function LatestMetric(h: seq<Op>, key: string): Option<real> {
    if h == [] then None
    else
      var last := h[|h| - 1];
      if last.Log? && key in last.metrics then Some(last.metrics[key]) else LatestMetric(h[..|h| - 1], key)
  }

  /** The stage most recently promoted to, if any. */
  function LatestPromotion(h: seq<Op>): Option<string> {
    if h == [] then None
    else
      var last := h[|h| - 1];
      if last.Promote? then Some(last.stage) else LatestPromotion(h[..|h| - 1])
  }

  /** The most recent promotion that decides the run. */
  function LatestVerdict(h: seq<Op>): Option<string> {
    if h == [] then None
    else
      var last := h[|h| - 1];
      if last.Promote? && (last.stage == PRODUCTION || last.stage == REJECTED) then Some(last.stage)
      else LatestVerdict(h[..|h| - 1])
  }

  lemma {:induction false} MetricsAreLatest(h: seq<Op>, key: string)
    requires IsHistory(h)
    ensures key in Replay(h).metrics <==> LatestMetric(h, key).Some?
    ensures key in Replay(h).metrics ==> Replay(h).metrics[key] == LatestMetric(h, key).value
  {
    if |h| > 1 {
      MetricsAreLatest(h[..|h| - 1], key);
    } else {
      assert LatestMetric(h[..0], key).None?;
    }
  }

  lemma {:induction false} StageIsLatest(h: seq<Op>)
    requires IsHistory(h)
    ensures Replay(h).stage == if LatestPromotion(h).Some? then LatestPromotion(h).value else h[0].stage
  {
    if |h| > 1 {
      StageIsLatest(h[..|h| - 1]);
    } else {
      assert LatestPromotion(h[..0]).None?;
    }
  }

  lemma {:induction false} StatusFollowsVerdict(h: seq<Op>)
    requires IsHistory(h)
    ensures Replay(h).status ==
            match LatestVerdict(h)
            case None => "running"
            case Some(stage) => if stage == PRODUCTION then "completed" else "rejected"
  {
    if |h| > 1 {
      StatusFollowsVerdict(h[..|h| - 1]);
    } else {
      assert LatestVerdict(h[..0]).None?;
    }
  }

  /**
   The stage tag agrees with the stage exactly when the run was promoted at least once, or its
   own start tags did not carry a different stage.
   */
  lemma {:induction false} StageTagAgreesIff(h: seq<Op>)
    requires IsHistory(h)
    ensures "stage" in Replay(h).tags
    ensures Replay(h).tags["stage"] == Replay(h).stage <==>
            LatestPromotion(h).Some? || "stage" !in h[0].tags || h[0].tags["stage"] == h[0].stage
    ensures LatestPromotion(h).None? ==> Replay(h).tags == InitialTags(h[0])
  {
    StageIsLatest(h);
    if |h| > 1 {
      StageTagAgreesIff(h[..|h| - 1]);
      StageIsLatest(h[..|h| - 1]);
    } else {
      assert LatestPromotion(h[..0]).None?;
    }
  }

  /** The identity of a row and all its tags but the stage are those of the call that started it. */
  lemma {:induction false} OriginIsKept(h: seq<Op>, key: string)
    requires IsHistory(h)
    ensures StartedBy(Replay(h), h[0])
    ensures TagOf(Replay(h), key) ==
            if key == "stage" && LatestPromotion(h).Some? then LatestPromotion(h) else StartTag(h[0], key)
  {
    hide FreshFrom, Updated, Change, InitialRow, StartTag;
    if |h| > 1 {
      var init, op := h[..|h| - 1], h[|h| - 1];
      OriginIsKept(init, key);
      UpdateKeepsOrigin(Replay(init), op, key);
    } else {
      InitialRowIsFresh(h[0]);
      FreshOrigin(InitialRow(h[0]), h[0], key);
      assert LatestPromotion(h[..0]).None?;
    }
  }

  lemma FreshOrigin(row: Row, op: Op, key: string)
    requires op.Start? && FreshFrom(row, op)
    ensures StartedBy(row, op) && TagOf(row, key) == StartTag(op, key)
  {
    hide StartTag, TagOf;
  }

  lemma UpdateKeepsOrigin(row: Row, op: Op, key: string)
    requires !op.Start?
    ensures SameIdentity(row, Change(row, op))
    ensures TagOf(Change(row, op), key) == if key == "stage" && op.Promote? then Some(op.stage) else TagOf(row, key)
  {
    hide Change;
    ChangeUpdates(row, op);
  }

  /** All of the above about a row found in the log after any run with fresh ids. */
  lemma SurvivingRow(ops: seq<Op>, i: nat, key: string)
    requires Distinct(Created(ops)) && i < |Run(ops)|
    ensures
      var row := Run(ops)[i];
      var h := History(ops, row.runId);
      && IsHistory(h)
      && StartedBy(row, h[0])
      && (key in row.metrics <==> LatestMetric(h, key).Some?)
      && (key in row.metrics ==> row.metrics[key] == LatestMetric(h, key).value)
      && row.stage == (if LatestPromotion(h).Some? then LatestPromotion(h).value else h[0].stage)
      && row.status == (match LatestVerdict(h)
                        case None => "running"
                        case Some(stage) => if stage == PRODUCTION then "completed" else "rejected")
      && TagOf(row, key) ==
         (if key == "stage" && LatestPromotion(h).Some? then LatestPromotion(h) else StartTag(h[0], key))
      && "stage" in row.tags
      && (row.tags["stage"] == row.stage <==>
          LatestPromotion(h).Some? || "stage" !in h[0].tags || h[0].tags["stage"] == h[0].stage)
  {
    hide Run, Created;
    RowsReplayTheirHistory(ops);
    var h := History(ops, Run(ops)[i].runId);
    assert Replays(ops, Run(ops)[i]);
    hide History, LatestMetric, LatestPromotion, LatestVerdict, Replays, StartTag, TagOf, InitialTags;
    OriginIsKept(h, key);
    MetricsAreLatest(h, key);
    StageIsLatest(h);
    StatusFollowsVerdict(h);
    StageTagAgreesIff(h);
  }

  /** A draft started with a stage tag of its own carries a tag that disagrees with its stage. */
  lemma StageTagDisagrees(runId: string)
    ensures
      var op := Start(runId, "run", "prompt", "", map[], map["stage" := "shadow"], "draft", "");
      && Accepts([], op) && Run([op]) == [InitialRow(op)] && History([op], runId) == [op]
      && InitialRow(op).stage == "draft" && InitialRow(op).tags["stage"] == "shadow"
  {
    var op := Start(runId, "run", "prompt", "", map[], map["stage" := "shadow"], "draft", "");
    assert [op][..0] == [] && Run([]) == [] && Effective([]) == [];
    assert [] + [InitialRow(op)] == [InitialRow(op)] && [] + [op] == [op];
    assert Effective([op]) == [op] && Of([], runId) == [];
  }
}
