/** The rows the runner emits and the numbers the report makes of them agree, over any number of runs. */
module Reports {
  import opened Wrappers
  import opened Order
  import opened Costs
  import opened Runs
  import opened Replay
  import opened Metrics

  /** What one run left in the metrics file. */
  datatype RunOutput = RunOutput(lines: seq<StepMetric>, run: RunMetric)

  function AsLine(s: StepMetric): MetricRow { StepLine(s) }

  function Emitted(x: RunOutput): seq<MetricRow> {
    MapSeq(AsLine, x.lines) + [RunLine(x.run)]
  }

  function AllRows(outs: seq<RunOutput>): seq<MetricRow> {
    if |outs| == 0 then [] else AllRows(outs[..|outs| - 1]) + Emitted(outs[|outs| - 1])
  }

  function AllLines(outs: seq<RunOutput>): seq<StepMetric> {
    if |outs| == 0 then [] else AllLines(outs[..|outs| - 1]) + outs[|outs| - 1].lines
  }

  function RunsOf(outs: seq<RunOutput>): (r: seq<RunMetric>)
    ensures |r| == |outs| && forall i | 0 <= i < |outs| :: r[i] == outs[i].run
  {
    seq(|outs|, i requires 0 <= i < |outs| => outs[i].run)
  }

  ghost predicate OwnLines(x: RunOutput) {
    && (forall i | 0 <= i < |x.lines| :: x.lines[i].runId == x.run.runId)
    && (forall i, j | 0 <= i < j < |x.lines| :: x.lines[i].row.stepIndex != x.lines[j].row.stepIndex)
  }

  predicate SomeInvalid(lines: seq<StepMetric>) {
    exists i | 0 <= i < |lines| :: !lines[i].row.replayValid
  }

  /** The run's own row counts what its step rows show. */
  ghost predicate Coherent(x: RunOutput) {
    && OwnLines(x)
    && x.run.stepsAttempted == Some(|x.lines|)
    && x.run.stepsReplayValid == |Where(x.lines, Valid)|
    && (x.run.selfHealed ==> SomeInvalid(x.lines))
  }

  // ---- a replay run is coherent ----

  function LineOfRow(runId: string, version: string, o: Options, oracle: Oracle, base: nat, rows: seq<StepRow>): (r: seq<StepMetric>)
    ensures |r| == |rows|
    ensures forall i | 0 <= i < |rows| :: r[i] == StepMetric(runId, rows[i], version, o.source, oracle.stamp(base + i))
  {
    seq(|rows|, i requires 0 <= i < |rows| => StepMetric(runId, rows[i], version, o.source, oracle.stamp(base + i)))
  }

  function OutputOf(runId: string, version: string, o: Options, oracle: Oracle, base: nat, r: Report): RunOutput {
    RunOutput(LineOfRow(runId, version, o, oracle, base, r.rows), RunLineOf(runId, version, o, oracle.stamp(base + |r.rows|), r).run)
  }

  lemma {:induction false} CountsMatch(lines: seq<StepMetric>, rows: seq<StepRow>)
    requires |lines| == |rows| && forall i | 0 <= i < |rows| :: lines[i].row == rows[i]
    ensures |Where(lines, Valid)| == CountValid(rows)
  {
    if |rows| > 0 {
      CountsMatch(lines[..|rows| - 1], rows[..|rows| - 1]);
    }
  }

  ghost predicate DistinctIndices(plan: seq<PlanStep>) {
    forall i, j | 0 <= i < j < |plan| :: plan[i].index != plan[j].index
  }

  lemma LinesAreEmitted(runId: string, version: string, o: Options, oracle: Oracle, base: nat, r: Report)
    ensures RunLines(runId, version, o, oracle, base, r) == Emitted(OutputOf(runId, version, o, oracle, base, r))
  {
    var x := OutputOf(runId, version, o, oracle, base, r);
    assert MapSeq(AsLine, x.lines) == Lines(runId, version, o.source, oracle, base, r.rows);
  }

  /** What a report must satisfy for the rows emitted for it to be coherent. */
  ghost predicate CountsItsRows(r: Report) {
    && r.stepsAttempted == |r.rows| && r.totals.replayValid == CountValid(r.rows)
    && (r.totals.selfHealed ==> SomeRepaired(r.rows))
    && forall i, j | 0 <= i < j < |r.rows| :: r.rows[i].stepIndex != r.rows[j].stepIndex
  }

  lemma CountedIsCoherent(runId: string, version: string, o: Options, oracle: Oracle, base: nat, r: Report)
    requires CountsItsRows(r)
    ensures Coherent(OutputOf(runId, version, o, oracle, base, r))
  {
    var x := OutputOf(runId, version, o, oracle, base, r);
    CountsMatch(x.lines, r.rows);
    if r.totals.selfHealed {
      HealedLine(x.lines, r.rows);
    }
  }

  lemma FinishedCounts(o: Limits, started: int, plan: seq<PlanStep>, traces: seq<StepTrace>, tick: Option<int>)
    requires Runs.Finished(o, started, plan, traces, tick) && DistinctIndices(plan)
    ensures CountsItsRows(ReportOf(o, plan, traces, tick))
  {
    RowsExplainTotals(o, started, traces);
    RunGrammar(o, started, plan, traces, tick);
    SelfHealedIff(o, started, plan, traces);
  }

  /** What a finished run emits, for a program whose steps have distinct numbers, is coherent. */
  lemma ReplayIsCoherent(
    runId: string, version: string, o: Options, oracle: Oracle, base: nat,
    started: int, plan: seq<PlanStep>, traces: seq<StepTrace>, tick: Option<int>)
    requires Runs.Finished(o.limits, started, plan, traces, tick) && DistinctIndices(plan)
    ensures var r := ReportOf(o.limits, plan, traces, tick);
      var x := OutputOf(runId, version, o, oracle, base, r);
      RunLines(runId, version, o, oracle, base, r) == Emitted(x) && Coherent(x)
  {
    FinishedCounts(o.limits, started, plan, traces, tick);
    LinesAreEmitted(runId, version, o, oracle, base, ReportOf(o.limits, plan, traces, tick));
    CountedIsCoherent(runId, version, o, oracle, base, ReportOf(o.limits, plan, traces, tick));
  }

  lemma HealedLine(lines: seq<StepMetric>, rows: seq<StepRow>)
    requires |lines| == |rows| && (forall i | 0 <= i < |rows| :: lines[i].row == rows[i]) && SomeRepaired(rows)
    ensures SomeInvalid(lines)
  {
    var i :| 0 <= i < |rows| && rows[i].timeToRepair.Some? && rows[i].outcome == RepairedPass && !rows[i].replayValid;
    assert !Valid(lines[i]);
  }

  // ---- filtering the file ----

  lemma {:induction false} FilterConcat(a: seq<MetricRow>, b: seq<MetricRow>)
    ensures FilterSteps(a + b) == FilterSteps(a) + FilterSteps(b) && FilterRuns(a + b) == FilterRuns(a) + FilterRuns(b)
  {
    if |b| == 0 {
      assert a + b == a;
    } else {
      assert (a + b)[..|a + b| - 1] == a + b[..|b| - 1];
      FilterConcat(a, b[..|b| - 1]);
    }
  }

  lemma {:induction false} FilterLines(lines: seq<StepMetric>)
    ensures FilterSteps(MapSeq(AsLine, lines)) == lines && FilterRuns(MapSeq(AsLine, lines)) == []
  {
    if |lines| > 0 {
      FilterLines(lines[..|lines| - 1]);
      assert MapSeq(AsLine, lines)[..|lines| - 1] == MapSeq(AsLine, lines[..|lines| - 1]);
    }
  }

  lemma FilterEmitted(x: RunOutput)
    ensures FilterSteps(Emitted(x)) == x.lines && FilterRuns(Emitted(x)) == [x.run]
  {
    FilterLines(x.lines);
    var last := [RunLine(x.run)];
    assert last[..0] == [];
    FilterConcat(MapSeq(AsLine, x.lines), last);
  }

  lemma RunsOfSnoc(front: seq<RunOutput>, last: RunOutput)
    ensures RunsOf(front + [last]) == RunsOf(front) + [last.run]
    ensures AllRows(front + [last]) == AllRows(front) + Emitted(last) && AllLines(front + [last]) == AllLines(front) + last.lines
  {
    assert (front + [last])[..|front|] == front;
  }

  lemma FilterNext(rows: seq<MetricRow>, x: RunOutput)
    ensures FilterSteps(rows + Emitted(x)) == FilterSteps(rows) + x.lines
    ensures FilterRuns(rows + Emitted(x)) == FilterRuns(rows) + [x.run]
  {
    FilterEmitted(x);
    FilterConcat(rows, Emitted(x));
  }

  lemma {:induction false} FilterAll(outs: seq<RunOutput>)
    ensures FilterSteps(AllRows(outs)) == AllLines(outs) && FilterRuns(AllRows(outs)) == RunsOf(outs)
  {
    if |outs| > 0 {
      var front, last := outs[..|outs| - 1], outs[|outs| - 1];
      FilterAll(front);
      assert outs == front + [last];
      RunsOfSnoc(front, last);
      FilterNext(AllRows(front), last);
    }
  }

  ghost predicate DistinctRuns(outs: seq<RunOutput>) {
    forall i, j | 0 <= i < j < |outs| :: outs[i].run.runId != outs[j].run.runId
  }

  ghost predicate AllCoherent(outs: seq<RunOutput>) {
    forall i | 0 <= i < |outs| :: Coherent(outs[i])
  }

  lemma {:induction false} LinesAreDistinct(outs: seq<RunOutput>)
    requires AllCoherent(outs) && DistinctRuns(outs)
    ensures DistinctSteps(AllLines(outs))
    ensures forall i | 0 <= i < |AllLines(outs)| :: exists k :: 0 <= k < |outs| && outs[k].run.runId == AllLines(outs)[i].runId
  {
    if |outs| > 0 {
      var n := |outs| - 1;
      var front, own := AllLines(outs[..n]), outs[n].lines;
      LinesAreDistinct(outs[..n]);
      assert Coherent(outs[n]);
      forall i | 0 <= i < |front| ensures exists k :: 0 <= k < n && outs[k].run.runId == front[i].runId {
        var k :| 0 <= k < n && outs[..n][k].run.runId == front[i].runId;
        assert outs[k].run.runId == front[i].runId;
      }
      forall i | 0 <= i < |own| ensures own[i].runId == outs[n].run.runId {
      }
      DistinctConcat(front, own, outs[n].run.runId);
    }
  }

  lemma DistinctConcat(front: seq<StepMetric>, own: seq<StepMetric>, id: string)
    requires DistinctSteps(front) && (forall i | 0 <= i < |front| :: front[i].runId != id)
    requires forall i | 0 <= i < |own| :: own[i].runId == id
    requires forall i, j | 0 <= i < j < |own| :: own[i].row.stepIndex != own[j].row.stepIndex
    ensures DistinctSteps(front + own)
  {
    var s := front + own;
    forall i, j | 0 <= i < j < |s| ensures (s[i].runId, s[i].row.stepIndex) != (s[j].runId, s[j].row.stepIndex) {
      if j >= |front| {
        assert s[j] == own[j - |front|];
        assert i >= |front| ==> s[i] == own[i - |front|];
      }
    }
  }

  // ---- the report against the runs ----

  function LinesCount(x: RunOutput): nat { |x.lines| }

  function ValidCount(x: RunOutput): nat { x.run.stepsReplayValid }

  lemma {:induction false} CountAll(outs: seq<RunOutput>)
    requires AllCoherent(outs)
    ensures |AllLines(outs)| == SumBy(outs, LinesCount)
    ensures SumBy(AllLines(outs), One(Valid)) == SumBy(outs, ValidCount)
  {
    if |outs| > 0 {
      var n := |outs| - 1;
      CountAll(outs[..n]);
      assert Coherent(outs[n]);
      WhereCount(outs[n].lines, Valid);
      Metrics.SumConcat(AllLines(outs[..n]), outs[n].lines, One(Valid));
    }
  }

  /** Step validity is, exactly, the runs' valid steps over the runs' attempted steps. */
  lemma ValidityIsWhatRunsCounted(outs: seq<RunOutput>)
    requires AllCoherent(outs) && DistinctRuns(outs)
    ensures StepReplayValidity(AllRows(outs)) == Ratio(SumBy(outs, ValidCount), SumBy(outs, LinesCount))
  {
    FilterAll(outs);
    LinesAreDistinct(outs);
    DedupeLosesNothing(AllLines(outs));
    CountAll(outs);
    WhereCount(AllLines(outs), Valid);
  }

  lemma HealedFailedFirst(x: RunOutput)
    requires Coherent(x)
    ensures x.run.selfHealed ==> FailedFirstPass(x.run)
  {
    WhereCount(x.lines, Valid);
  }

  lemma {:induction false} FilteredBoth<T>(s: seq<T>, p: T -> bool, q: T -> bool)
    requires forall i | 0 <= i < |s| :: q(s[i]) ==> p(s[i])
    ensures Where(Where(s, p), q) == Where(s, q)
  {
    if |s| > 0 {
      var front := s[..|s| - 1];
      FilteredBoth(front, p, q);
      if p(s[|s| - 1]) {
        assert (Where(front, p) + [s[|s| - 1]])[..|Where(front, p)|] == Where(front, p);
      }
    }
  }

  /** Every run that healed itself is among the runs the rate is taken over. */
  lemma EveryHealedRunCounts(outs: seq<RunOutput>)
    requires AllCoherent(outs)
    ensures var runs := RunsOf(outs);
      SelfHealRate(AllRows(outs)) == Ratio(|Where(runs, SelfHealed)|, |Where(runs, FailedFirstPass)|)
  {
    var runs := RunsOf(outs);
    FilterAll(outs);
    forall i | 0 <= i < |runs| ensures SelfHealed(runs[i]) ==> FailedFirstPass(runs[i]) {
      assert Coherent(outs[i]);
      HealedFailedFirst(outs[i]);
    }
    FilteredBoth(runs, FailedFirstPass, SelfHealed);
  }

  /** A run row written before the attempted steps were recorded stands for all of its steps. */
  lemma FailedFirstPassIff(r: RunMetric)
    ensures FailedFirstPass(r) <==> r.stepsReplayValid < (match r.stepsAttempted case Some(n) => n case None => r.stepsTotal)
  {
  }

  lemma {:induction false} WhereAll(lines: seq<StepMetric>)
    requires !SomeInvalid(lines)
    ensures |Where(lines, Valid)| == |lines|
  {
    if |lines| > 0 {
      WhereAll(lines[..|lines| - 1]);
    }
  }

  /** In a coherent run the run row counts as failing exactly when one of its step rows is no valid replay. */
  lemma FailedIffSomeInvalid(x: RunOutput)
    requires Coherent(x)
    ensures FailedFirstPass(x.run) <==> SomeInvalid(x.lines)
  {
    WhereCount(x.lines, Valid);
    if SomeInvalid(x.lines) {
      var i :| 0 <= i < |x.lines| && !x.lines[i].row.replayValid;
      assert !Valid(x.lines[i]);
    } else {
      WhereAll(x.lines);
    }
  }

  function HealedOnes(x: RunOutput): nat { if x.run.selfHealed then 1 else 0 }

  function FailingOnes(x: RunOutput): nat { if SomeInvalid(x.lines) then 1 else 0 }

  predicate SectionSays(s: Section, n: nat, d: nat) {
    if d == 0 then s.value == None else s.value == Some(n as real / d as real) && s.numerator == n && s.denominator == d
  }

  lemma {:induction false} CountRuns(outs: seq<RunOutput>)
    requires AllCoherent(outs)
    ensures |Where(RunsOf(outs), SelfHealed)| == SumBy(outs, HealedOnes)
    ensures |Where(RunsOf(outs), FailedFirstPass)| == SumBy(outs, FailingOnes)
  {
    if |outs| > 0 {
      var n := |outs| - 1;
      CountRuns(outs[..n]);
      assert RunsOf(outs)[..n] == RunsOf(outs[..n]) && Coherent(outs[n]);
      FailedIffSomeInvalid(outs[n]);
    }
  }

  /**
   * The two rates in terms of what the runs left: valid steps over attempted steps, and self-healed runs over the runs
   * in which some step was no valid replay.
   */
  lemma RatesSay(outs: seq<RunOutput>)
    requires AllCoherent(outs)
    ensures SectionSays(SelfHealRate(AllRows(outs)), SumBy(outs, HealedOnes), SumBy(outs, FailingOnes))
    ensures DistinctRuns(outs) ==> SectionSays(StepReplayValidity(AllRows(outs)), SumBy(outs, ValidCount), SumBy(outs, LinesCount))
  {
    EveryHealedRunCounts(outs);
    CountRuns(outs);
    if DistinctRuns(outs) {
      ValidityIsWhatRunsCounted(outs);
    }
  }
}
